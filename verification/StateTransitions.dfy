/**
 * A whole block on the state built from proofs: it takes the changes of the block, and its state
 * root is then that of the full state after the block.
 */
module StateTransitions {
  import opened Primitives
  import opened Nibbles
  import opened Trie
  import opened TrieHistory
  import opened NodeCodec
  import opened Binding
  import opened SparseRuns
  import opened Pruning
  import opened Resolving
  import opened Orphans
  import opened LoneNodes
  import opened Exclusion
  import opened ProofTries
  import opened Transitions
  import opened StateMap
  import opened StatePruning
  import opened StateProofs
  import opened Witnesses

  // Updates keep states complete.

  lemma UpdatedTrieComplete(before: Node, keys: set<B256>, after: Node)
    requires Complete(before) && HashedTrie(after) && Clean(after) && Sized(after)
    requires forall path :: !IsKeyOf(keys, path) ==> Find(after, path) == Find(before, path)
    requires forall key :: key in keys ==> !Find(after, ToNibs(key)).Blocked?
    ensures Complete(after)
  {
    forall path ensures !Find(after, path).Blocked? {
      FullNotBlocked(before, path);
      if IsKeyOf(keys, path) {
        var key :| key in keys && ToNibs(key) == path;
      }
    }
    FindsResolved(after);
  }

  ghost predicate SizedState(state: State) {
    Sized(state.accounts) && forall a :: a in state.storages ==> Sized(state.storages[a])
  }

  /** What is left of a complete state after changes is complete, if it can be written out. */
  lemma UpdateKeepsComplete(before: State, diff: HashedPostState, after: State)
    requires CompleteState(before) && Applied(before, diff, diff.accounts.Keys, after) && SizedState(after)
    ensures CompleteState(after)
  {
    UpdateKeepsClean(before, diff, after);
    forall a | a in diff.accounts ensures !Find(after.accounts, ToNibs(a)).Blocked? {
      assert AccountApplied(before, diff, a, after);
    }
    UpdatedTrieComplete(before.accounts, diff.accounts.Keys, after.accounts);
    forall a | a in after.storages ensures Complete(after.storages[a]) {
      if a in diff.accounts && diff.accounts[a].Some? {
        assert AccountApplied(before, diff, a, after);
        UpdatedStorageComplete(before, diff, a, after);
      } else if a in diff.accounts {
        assert AccountApplied(before, diff, a, after);
      } else {
        assert SameStorage(before, a, after);
      }
    }
  }

  lemma UpdatedStorageComplete(before: State, diff: HashedPostState, a: B256, after: State)
    requires CompleteState(before) && WellShaped(after) && CleanState(after) && SizedState(after)
    requires a in diff.accounts && diff.accounts[a].Some? && AccountApplied(before, diff, a, after)
    ensures a in after.storages && Complete(after.storages[a])
  {
    var storage := StorageOf(diff, a);
    TrieComplete(before, a);
    forall slot | slot in storage.storage.Keys ensures !Find(after.storages[a], ToNibs(slot)).Blocked? {
      assert Find(after.storages[a], ToNibs(slot)) == After(SlotOp(slot, storage.storage[slot]));
    }
    UpdatedTrieComplete(if storage.wiped then Null else TrieOf(before, a), storage.storage.Keys, after.storages[a]);
  }

  // The parts that the proofs show.

  lemma ShownHashed(n: Node, nodes: seq<Node>)
    requires Complete(n) && Uniform(n, 64)
    ensures HashedTrie(Shown(n, nodes)) && Clean(Shown(n, nodes))
  {
    var keep := KeepStored(Filed(nodes));
    CutCanonical(n, keep);
    CutUniform(n, keep, 64);
    StoredNotShort(n, Filed(nodes));
    CutClean(n, keep);
  }

  /** Resolving cuts nothing short away: what has a short encoding is written out in its parent. */
  lemma {:induction false} StoredNotShort(n: Node, store: NodeStore)
    ensures !CutsShort(n, KeepStored(store))
  {
    match n
    case Branch(children) =>
      forall i | 0 <= i < |children| ensures !CutsShort(children[i], KeepStored(store)) {
        StoredNotShort(children[i], store);
      }
    case Extension(_, child) => StoredNotShort(child, store);
    case _ =>
  }

  lemma DigestHashed(digest: B256)
    ensures HashedTrie(NodeFromDigest(digest)) && Clean(NodeFromDigest(digest))
  {
    var n := NodeFromDigest(digest);
    forall key ensures AtDepth(Find(n, key), key, 64) {}
  }

  /** A key whose proof was filed is answered as in the full trie. */
  lemma ShownAnswers(n: Node, nodes: seq<Node>, key: Path)
    requires Complete(n) && (!n.Null? ==> Provable(n, nodes)) && Includes(nodes, ProofNodes(n, key))
    ensures Find(Shown(n, nodes), key) == Find(n, key) && !Find(n, key).Blocked?
  {
    FullNotBlocked(n, key);
    if !n.Null? {
      ResolveShows(n, nodes, Depth(n));
      ProofsAnswer(n, nodes, Depth(n), key);
    }
  }

  /** A run of updates of distinct 32-byte keys on what the proofs show, against the run on the whole trie. */
  lemma ShownRuns(n: Node, nodes: seq<Node>, ops: seq<Op>)
    requires Complete(n) && Uniform(n, 64) && DistinctKeys(ops)
    requires forall op :: op in ops ==> |op.key| == 64 && !Find(Shown(n, nodes), op.key).Blocked?
    requires Run(n, ops).Some? && OrphansFiled(Run(n, ops).value, RemovedKeys(ops), nodes)
    ensures Canonical(Shown(n, nodes)) && Run(Shown(n, nodes), ops).Some?
    ensures Hash(Run(Shown(n, nodes), ops).value) == Hash(Run(n, ops).value)
  {
    ShownHashed(n, nodes);
    ShownStands(n, nodes);
    forall op | op in ops ensures !Find(n, op.key).Blocked? {
      FullNotBlocked(n, op.key);
    }
    UpdatesRecover(Shown(n, nodes), n, 64, ops, nodes);
  }

  /** One run went through on the trie and on what the proofs show of it, with everything filed that it needs. */
  ghost predicate BothRan(n: Node, nodes: seq<Node>, ops: seq<Op>, whole: Node, shown: Node) {
    && Complete(n) && Uniform(n, 64) && DistinctKeys(ops)
    && (forall op :: op in ops ==> |op.key| == 64 && !Find(Shown(n, nodes), op.key).Blocked?)
    && Canonical(Shown(n, nodes)) && OrphansFiled(whole, RemovedKeys(ops), nodes)
    && Run(n, ops) == Some(whole) && Run(Shown(n, nodes), ops) == Some(shown)
  }

  lemma BothAgree(n: Node, nodes: seq<Node>, ops: seq<Op>, whole: Node, shown: Node)
    requires BothRan(n, nodes, ops, whole, shown)
    ensures Hash(shown) == Hash(whole)
  {
    ShownRuns(n, nodes, ops);
  }

  // One storage trie.

  /** The changed slots are proved, and those that are removed also after the block. */
  ghost predicate SlotsProved(storage: HashedStorage, before: AccountProof, final: AccountProof) {
    storage.wiped || forall slot :: slot in storage.storage ==>
      SlotProved(before.slots, slot) && (storage.storage[slot] == 0 ==> SlotProved(final.slots, slot))
  }

  /** The nodes that are filed for a storage trie. */
  function SlotNodes(before: AccountProof, final: AccountProof): seq<Node> {
    FiledNodes(SlotProofs(before.slots), final.slots)
  }

  lemma StorageProvable(n: Node, after: Node, before: AccountProof, final: AccountProof, fuel: nat)
    requires Complete(n) && Complete(after) && GenuineStorage(n, after, before, final, fuel)
    requires before.slots != [] && !n.Null?
    ensures Provable(n, SlotNodes(before, final))
  {
    var keys, _ := SlotsAsProofs(n, before.slots);
    var _, changed := SlotsAsProofs(after, final.slots);
    ProofsProvable(n, keys, after, changed);
  }

  lemma SlotAnswered(n: Node, after: Node, before: AccountProof, final: AccountProof, fuel: nat, slot: B256)
    requires Complete(n) && Complete(after) && GenuineStorage(n, after, before, final, fuel)
    requires SlotProved(before.slots, slot)
    ensures Find(ShownStorage(n, before, final), ToNibs(slot)) == Find(n, ToNibs(slot))
    ensures !Find(n, ToNibs(slot)).Blocked?
  {
    var i :| 0 <= i < |before.slots| && before.slots[i].0 == slot;
    if !n.Null? {
      StorageProvable(n, after, before, final, fuel);
    }
    ProofsIncluded(SlotProofs(before.slots), i, OrphansOf(final.slots));
    ShownAnswers(n, SlotNodes(before, final), ToNibs(slot));
  }

  /** What the removal of a slot needs is filed. */
  lemma SlotOrphans(after: Node, before: AccountProof, final: AccountProof, slot: B256)
    requires Complete(after) && ProvedIn(after, final.slots) && SlotProved(final.slots, slot)
    requires Find(after, ToNibs(slot)) == Missing
    ensures Includes(SlotNodes(before, final), Shortenings(LastProofNode(after, ToNibs(slot))))
  {
    var i :| 0 <= i < |final.slots| && final.slots[i].0 == slot;
    GetIsFind(after, ToNibs(slot));
    ExclusionProved(after, ToNibs(slot));
    OrphansIncluded(final.slots, i, NodesOf(SlotProofs(before.slots)));
  }

  /** The same changes of proved slots were applied to a storage trie and to what the proofs show of it. */
  ghost predicate StorageChanged(
      n: Node, before: AccountProof, final: AccountProof, fuel: nat, storage: HashedStorage, whole: Node, shown: Node)
  {
    && Complete(n) && Uniform(n, 64) && Complete(whole) && HashedTrie(whole) && HashedTrie(shown)
    && GenuineStorage(n, whole, before, final, fuel) && SlotsProved(storage, before, final)
    && StorageApplied(n, storage, storage.storage.Keys, whole)
    && StorageApplied(ShownStorage(n, before, final), storage, storage.storage.Keys, shown)
  }

  /** A storage trie and what the proofs show of it have the same root after the same changes. */
  lemma ShownStorageAgrees(
      n: Node, before: AccountProof, final: AccountProof, fuel: nat, storage: HashedStorage, whole: Node, shown: Node)
    requires StorageChanged(n, before, final, fuel, storage, whole, shown)
    ensures Hash(shown) == Hash(whole)
  {
    if storage.wiped {
      StorageDetermined(n, storage, whole, shown);
    } else if before.slots == [] {
      NothingChanged(n, storage, whole);
      DigestHashed(Hash(n));
      NothingChanged(ShownStorage(n, before, final), storage, shown);
    } else {
      SlotsRun(n, before, final, fuel, storage, whole, shown);
    }
  }

  lemma NothingChanged(n: Node, storage: HashedStorage, after: Node)
    requires HashedTrie(n) && HashedTrie(after) && !storage.wiped && storage.storage == map[]
    requires StorageApplied(n, storage, storage.storage.Keys, after)
    ensures after == n
  {
    forall path ensures Find(after, path) == Find(n, path) {
      assert !IsKeyOf(storage.storage.Keys, path);
    }
    CanonicalUnique(after, n);
  }

  lemma DistinctHashed(order: seq<B256>, ops: seq<Op>)
    requires |ops| == |order| && forall i :: 0 <= i < |ops| ==> ops[i].key == ToNibs(order[i])
    requires forall i, j :: 0 <= i < j < |order| ==> order[i] != order[j]
    ensures DistinctKeys(ops)
  {
    forall i, j | 0 <= i < j < |ops| ensures ops[i].key != ops[j].key {
      if ops[i].key == ops[j].key {
        ToNibsInjective(order[i], order[j]);
      }
    }
  }

  lemma SlotsAnswered(
      n: Node, after: Node, before: AccountProof, final: AccountProof, fuel: nat, storage: HashedStorage)
    requires Complete(n) && Complete(after) && GenuineStorage(n, after, before, final, fuel)
    requires SlotsProved(storage, before, final)
    ensures StorageResolvable(n, storage) && StorageResolvable(ShownStorage(n, before, final), storage)
  {
    if !storage.wiped {
      forall slot | slot in storage.storage
        ensures !Find(n, ToNibs(slot)).Blocked? && !Find(ShownStorage(n, before, final), ToNibs(slot)).Blocked?
      {
        SlotAnswered(n, after, before, final, fuel, slot);
      }
    }
  }

  lemma SlotsOrphaned(
      n: Node, before: AccountProof, final: AccountProof, fuel: nat, storage: HashedStorage, order: seq<B256>,
      whole: Node, shown: Node)
    requires StorageChanged(n, before, final, fuel, storage, whole, shown) && !storage.wiped
    requires forall slot :: slot in storage.storage <==> slot in order
    ensures OrphansFiled(whole, RemovedKeys(SlotOps(order, storage.storage)), SlotNodes(before, final))
  {
    var ops := SlotOps(order, storage.storage);
    forall key | key in RemovedKeys(ops)
      ensures Includes(SlotNodes(before, final), Shortenings(LastProofNode(whole, key)))
    {
      var i :| 0 <= i < |ops| && ops[i] == Remove(key);
      assert order[i] in storage.storage && ops[i] == SlotOp(order[i], storage.storage[order[i]]);
      SlotOrphans(whole, before, final, order[i]);
    }
  }

  /** The changed slots as one run, on the trie and on what the proofs show of it. */
  lemma SlotsBothRun(
      n: Node, before: AccountProof, final: AccountProof, fuel: nat, storage: HashedStorage, order: seq<B256>,
      whole: Node, shown: Node)
    requires StorageChanged(n, before, final, fuel, storage, whole, shown)
    requires !storage.wiped && before.slots != []
    requires forall slot :: slot in storage.storage <==> slot in order
    requires forall i, j :: 0 <= i < j < |order| ==> order[i] != order[j]
    ensures Canonical(Shown(n, SlotNodes(before, final)))
    ensures Run(n, SlotOps(order, storage.storage)) == Some(whole)
    ensures Run(Shown(n, SlotNodes(before, final)), SlotOps(order, storage.storage)) == Some(shown)
  {
    SlotsAnswered(n, whole, before, final, fuel, storage);
    ShownHashed(n, SlotNodes(before, final));
    StorageRuns(n, storage, order, whole);
    StorageRuns(Shown(n, SlotNodes(before, final)), storage, order, shown);
  }

  lemma SlotsResolved(
      n: Node, before: AccountProof, final: AccountProof, fuel: nat, storage: HashedStorage, order: seq<B256>,
      whole: Node, shown: Node)
    requires StorageChanged(n, before, final, fuel, storage, whole, shown)
    requires !storage.wiped && before.slots != []
    requires forall slot :: slot in storage.storage <==> slot in order
    ensures forall op :: op in SlotOps(order, storage.storage) ==>
      |op.key| == 64 && !Find(Shown(n, SlotNodes(before, final)), op.key).Blocked?
  {
    SlotsAnswered(n, whole, before, final, fuel, storage);
    forall op | op in SlotOps(order, storage.storage)
      ensures |op.key| == 64 && !Find(Shown(n, SlotNodes(before, final)), op.key).Blocked?
    {
      var i :| 0 <= i < |order| && SlotOp(order[i], storage.storage[order[i]]) == op;
      assert order[i] in storage.storage;
    }
  }

  lemma SlotsReady(
      n: Node, before: AccountProof, final: AccountProof, fuel: nat, storage: HashedStorage, order: seq<B256>,
      whole: Node, shown: Node)
    requires StorageChanged(n, before, final, fuel, storage, whole, shown)
    requires !storage.wiped && before.slots != []
    requires forall slot :: slot in storage.storage <==> slot in order
    requires forall i, j :: 0 <= i < j < |order| ==> order[i] != order[j]
    ensures BothRan(n, SlotNodes(before, final), SlotOps(order, storage.storage), whole, shown)
  {
    SlotsBothRun(n, before, final, fuel, storage, order, whole, shown);
    DistinctHashed(order, SlotOps(order, storage.storage));
    SlotsOrphaned(n, before, final, fuel, storage, order, whole, shown);
    SlotsResolved(n, before, final, fuel, storage, order, whole, shown);
  }

  /** Changed slots, run on what the proofs show of the trie. */
  lemma SlotsRun(
      n: Node, before: AccountProof, final: AccountProof, fuel: nat, storage: HashedStorage, whole: Node, shown: Node)
    requires StorageChanged(n, before, final, fuel, storage, whole, shown)
    requires !storage.wiped && before.slots != []
    ensures Hash(shown) == Hash(whole)
  {
    var order := Enumerate(storage.storage.Keys);
    SlotsReady(n, before, final, fuel, storage, order, whole, shown);
    BothAgree(n, SlotNodes(before, final), SlotOps(order, storage.storage), whole, shown);
  }

  // The whole state.

  /** Everything that the changes touch is proved. */
  ghost predicate ChangesProved(diff: HashedPostState, parents: Proofs, finals: Proofs) {
    forall a :: a in diff.accounts ==>
      && a in parents && a in finals
      && (diff.accounts[a].Some? ==> SlotsProved(StorageOf(diff, a), parents[a], finals[a]))
  }

  /** The state was built from genuine proofs of the state before and the state after the changes. */
  ghost predicate Transition(
      full: State, diff: HashedPostState, after: State, parents: Proofs, finals: Proofs, fuel: nat,
      nodes: seq<Node>, built: State)
  {
    && GenuineProofs(full, after, parents, finals, fuel) && ChangesProved(diff, parents, finals)
    && Applied(full, diff, diff.accounts.Keys, after) && ShowsState(full, parents, finals, nodes, built)
  }

  lemma BuiltShaped(
      full: State, after: State, parents: Proofs, finals: Proofs, fuel: nat, nodes: seq<Node>, built: State)
    requires GenuineProofs(full, after, parents, finals, fuel) && ShowsState(full, parents, finals, nodes, built)
    ensures WellShaped(built) && CleanState(built) && WellShaped(full)
  {
    DigestHashed(Hash(full.accounts));
    ShownHashed(full.accounts, nodes);
    forall a | a in built.storages ensures HashedTrie(built.storages[a]) && Clean(built.storages[a]) {
      TrieComplete(full, a);
      DigestHashed(Hash(TrieOf(full, a)));
      ShownHashed(TrieOf(full, a), SlotNodes(parents[a], finals[a]));
    }
  }

  /** A proved account is answered as in the full state. */
  lemma AccountAnswered(
      full: State, after: State, parents: Proofs, finals: Proofs, fuel: nat, nodes: seq<Node>, built: State, a: B256)
    requires GenuineProofs(full, after, parents, finals, fuel) && ShowsState(full, parents, finals, nodes, built)
    requires a in parents
    ensures Find(built.accounts, ToNibs(a)) == Find(full.accounts, ToNibs(a))
    ensures !Find(full.accounts, ToNibs(a)).Blocked?
  {
    if !full.accounts.Null? {
      AccountsProvable(full, after, parents, finals, fuel, nodes);
    }
    assert GenuineAccount(full, after, a, parents[a], finals[a], fuel);
    ShownAnswers(full.accounts, nodes, ToNibs(a));
  }

  /** And so is a proved slot. */
  lemma SlotAnsweredInState(
      full: State, after: State, parents: Proofs, finals: Proofs, fuel: nat, nodes: seq<Node>, built: State,
      a: B256, slot: B256)
    requires GenuineProofs(full, after, parents, finals, fuel) && ShowsState(full, parents, finals, nodes, built)
    requires a in parents && SlotProved(parents[a].slots, slot)
    ensures a in built.storages && Find(built.storages[a], ToNibs(slot)) == Find(TrieOf(full, a), ToNibs(slot))
  {
    TrieComplete(full, a);
    TrieComplete(after, a);
    assert GenuineAccount(full, after, a, parents[a], finals[a], fuel);
    SlotAnswered(TrieOf(full, a), TrieOf(after, a), parents[a], finals[a], fuel, slot);
  }

  lemma BuiltResolvable(
      full: State, diff: HashedPostState, after: State, parents: Proofs, finals: Proofs, fuel: nat,
      nodes: seq<Node>, built: State)
    requires Transition(full, diff, after, parents, finals, fuel, nodes, built)
    ensures Resolvable(built, diff) && Resolvable(full, diff)
  {
    forall a | a in diff.accounts ensures AccountResolvable(built, diff, a) && AccountResolvable(full, diff, a) {
      AccountAnswered(full, after, parents, finals, fuel, nodes, built, a);
      if diff.accounts[a].Some? {
        TrieComplete(full, a);
        TrieComplete(after, a);
        assert GenuineAccount(full, after, a, parents[a], finals[a], fuel);
        SlotsAnswered(TrieOf(full, a), TrieOf(after, a), parents[a], finals[a], fuel, StorageOf(diff, a));
      }
    }
  }

  /** The storage roots of changed accounts come out the same. */
  lemma StorageRootAgrees(
      full: State, diff: HashedPostState, after: State, parents: Proofs, finals: Proofs, fuel: nat,
      nodes: seq<Node>, built: State, result: State, a: B256)
    requires Transition(full, diff, after, parents, finals, fuel, nodes, built)
    requires Applied(built, diff, diff.accounts.Keys, result)
    requires a in diff.accounts && diff.accounts[a].Some?
    ensures Hash(TrieOf(result, a)) == Hash(TrieOf(after, a))
  {
    assert AccountApplied(full, diff, a, after) && AccountApplied(built, diff, a, result);
    TrieComplete(full, a);
    TrieComplete(after, a);
    assert GenuineAccount(full, after, a, parents[a], finals[a], fuel);
    ShownStorageAgrees(TrieOf(full, a), parents[a], finals[a], fuel, StorageOf(diff, a),
                       TrieOf(after, a), TrieOf(result, a));
  }

  /** What the removal of an account needs is filed. */
  lemma AccountOrphans(
      full: State, diff: HashedPostState, after: State, parents: Proofs, finals: Proofs, fuel: nat,
      nodes: seq<Node>, built: State, a: B256)
    requires Transition(full, diff, after, parents, finals, fuel, nodes, built)
    requires a in diff.accounts && diff.accounts[a].None?
    ensures Includes(nodes, Shortenings(LastProofNode(after.accounts, ToNibs(a))))
  {
    assert AccountApplied(full, diff, a, after);
    assert GenuineAccount(full, after, a, parents[a], finals[a], fuel);
    GetIsFind(after.accounts, ToNibs(a));
    ExclusionProved(after.accounts, ToNibs(a));
  }

  /** What a transition says about the changed accounts, taken in some order. */
  ghost predicate AccountsReady(
      full: State, diff: HashedPostState, after: State, nodes: seq<Node>, built: State, result: State,
      order: seq<B256>)
    requires forall i :: 0 <= i < |order| ==> order[i] in diff.accounts
  {
    var ops := AccountOps(order, diff, after);
    && ops == AccountOps(order, diff, result)
    && OrphansFiled(after.accounts, RemovedKeys(ops), nodes)
    && forall op :: op in ops ==> |op.key| == 64 && !Find(built.accounts, op.key).Blocked?
  }

  lemma TransitionReady(
      full: State, diff: HashedPostState, after: State, parents: Proofs, finals: Proofs, fuel: nat,
      nodes: seq<Node>, built: State, result: State, order: seq<B256>)
    requires Transition(full, diff, after, parents, finals, fuel, nodes, built)
    requires Applied(built, diff, diff.accounts.Keys, result)
    requires forall a :: a in diff.accounts <==> a in order
    ensures AccountsReady(full, diff, after, nodes, built, result, order)
  {
    forall a | a in diff.accounts ensures AccountReady(diff, a, after, nodes, built, result) {
      OneAccountReady(full, diff, after, parents, finals, fuel, nodes, built, result, a);
    }
    AllAccountsReady(full, diff, after, nodes, built, result, order);
  }

  /** The same for one account. */
  ghost predicate AccountReady(
      diff: HashedPostState, a: B256, after: State, nodes: seq<Node>, built: State, result: State)
    requires a in diff.accounts
  {
    var op := AccountOp(a, diff.accounts[a], after);
    && op == AccountOp(a, diff.accounts[a], result)
    && !Find(built.accounts, ToNibs(a)).Blocked?
    && (op.Remove? ==> Includes(nodes, Shortenings(LastProofNode(after.accounts, ToNibs(a)))))
  }

  lemma OneAccountReady(
      full: State, diff: HashedPostState, after: State, parents: Proofs, finals: Proofs, fuel: nat,
      nodes: seq<Node>, built: State, result: State, a: B256)
    requires Transition(full, diff, after, parents, finals, fuel, nodes, built)
    requires Applied(built, diff, diff.accounts.Keys, result) && a in diff.accounts
    ensures AccountReady(diff, a, after, nodes, built, result)
  {
    AccountAnswered(full, after, parents, finals, fuel, nodes, built, a);
    if diff.accounts[a].Some? {
      StorageRootAgrees(full, diff, after, parents, finals, fuel, nodes, built, result, a);
    } else {
      AccountOrphans(full, diff, after, parents, finals, fuel, nodes, built, a);
    }
  }

  lemma AllAccountsReady(
      full: State, diff: HashedPostState, after: State, nodes: seq<Node>, built: State, result: State,
      order: seq<B256>)
    requires forall i :: 0 <= i < |order| ==> order[i] in diff.accounts
    requires forall a :: a in diff.accounts ==> AccountReady(diff, a, after, nodes, built, result)
    ensures AccountsReady(full, diff, after, nodes, built, result, order)
  {
    var ops := AccountOps(order, diff, after);
    forall i | 0 <= i < |ops|
      ensures ops[i] == AccountOps(order, diff, result)[i]
      ensures |ops[i].key| == 64 && !Find(built.accounts, ops[i].key).Blocked?
      ensures ops[i].Remove? ==> Includes(nodes, Shortenings(LastProofNode(after.accounts, ops[i].key)))
    {
      assert AccountReady(diff, order[i], after, nodes, built, result);
    }
    assert ops == AccountOps(order, diff, result);
  }

  /** The changed accounts, run on what the proofs show of the state trie. */
  lemma AccountsRecover(
      full: State, diff: HashedPostState, after: State, nodes: seq<Node>, built: State, result: State,
      order: seq<B256>)
    requires CompleteState(full) && WellShaped(built) && Resolvable(full, diff) && Resolvable(built, diff)
    requires Applied(full, diff, diff.accounts.Keys, after) && Applied(built, diff, diff.accounts.Keys, result)
    requires forall a :: a in diff.accounts <==> a in order
    requires forall i, j :: 0 <= i < j < |order| ==> order[i] != order[j]
    requires AccountsReady(full, diff, after, nodes, built, result, order)
    requires built.accounts == Shown(full.accounts, nodes)
    ensures Hash(result.accounts) == Hash(after.accounts)
  {
    var ops := AccountOps(order, diff, after);
    AccountsRun(full, diff, order, after);
    AccountsRun(built, diff, order, result);
    DistinctHashed(order, ops);
    BothAgree(full.accounts, nodes, ops, after.accounts, result.accounts);
  }

  /** Without any address nothing changes. */
  lemma NoAccounts(full: State, diff: HashedPostState, after: State)
    requires WellShaped(full) && diff.accounts == map[] && Applied(full, diff, diff.accounts.Keys, after)
    ensures after.accounts == full.accounts
  {
    forall path ensures Find(after.accounts, path) == Find(full.accounts, path) {
      assert !IsKeyOf(diff.accounts.Keys, path);
    }
    CanonicalUnique(after.accounts, full.accounts);
  }

  lemma BuiltRoot(
      full: State, after: State, parents: Proofs, finals: Proofs, fuel: nat, nodes: seq<Node>, built: State)
    requires GenuineProofs(full, after, parents, finals, fuel) && ShowsState(full, parents, finals, nodes, built)
    ensures Hash(built.accounts) == Hash(full.accounts)
  {
    ShownStands(full.accounts, nodes);
  }

  /**
   * From genuine proofs of everything that a block touches, before the block and after it, the state
   * that is built takes the changes of the block, in whatever order they are applied, and then has
   * the state root that the full state has after the block.
   */
  lemma StateTransitionRecovers(
      full: State, diff: HashedPostState, after: State, parents: Proofs, finals: Proofs, fuel: nat,
      nodes: seq<Node>, built: State, result: State)
    requires Transition(full, diff, after, parents, finals, fuel, nodes, built)
    requires Applied(built, diff, diff.accounts.Keys, result)
    ensures WellShaped(built) && CleanState(built) && Resolvable(built, diff)
    ensures Hash(built.accounts) == Hash(full.accounts) && Hash(result.accounts) == Hash(after.accounts)
  {
    BuiltShaped(full, after, parents, finals, fuel, nodes, built);
    BuiltRoot(full, after, parents, finals, fuel, nodes, built);
    BuiltResolvable(full, diff, after, parents, finals, fuel, nodes, built);
    if parents == map[] {
      assert diff.accounts == map[];
      NoAccounts(full, diff, after);
      NoAccounts(built, diff, result);
    } else {
      var order := Enumerate(diff.accounts.Keys);
      TransitionReady(full, diff, after, parents, finals, fuel, nodes, built, result, order);
      AccountsRecover(full, diff, after, nodes, built, result, order);
    }
  }
}
