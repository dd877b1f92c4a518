/**
 * Pruning the whole state: the pruned state takes every update that was announced, and the state
 * root comes out as it does on the whole state.
 */
module StatePruning {
  import opened Primitives
  import opened Nibbles
  import opened Trie
  import opened TrieForm
  import opened TrieHistory
  import opened NodeCodec
  import opened Sparse
  import opened Touched
  import opened Pruning
  import opened StateMap

  // What is visited.

  /** The visits to the state trie and to the storage tries. */
  datatype StateVisits = StateVisits(accounts: seq<Visit>, storages: map<B256, seq<Visit>>)

  /** The references of the touched nodes, as `get_touched_nodes` returns them. */
  datatype Marks = Marks(accounts: set<Reference>, storages: map<B256, set<Reference>>)

  /** The visits reach the paths of all changed and touched keys; what will be deleted was deleted. */
  ghost predicate Reaches(
      visits: StateVisits, state: State, diff: HashedPostState, touched: map<B256, seq<B256>>)
  {
    && (forall a :: a in diff.accounts ==> ReachesAccount(visits, state, diff, a))
    && (forall a :: a in touched ==> ReachesTouched(visits, state, a, touched[a]))
    && visits.storages.Keys <= state.storages.Keys
  }

  ghost predicate ReachesAccount(visits: StateVisits, state: State, diff: HashedPostState, address: B256)
    requires address in diff.accounts
  {
    if diff.accounts[address].None? then Drops(visits.accounts, ToNibs(address))
    else if address !in state.storages then true
    else
      && Visits(visits.accounts, ToNibs(address))
      && address in visits.storages
      && ReachesSlots(visits.storages[address], StorageOf(diff, address).storage)
  }

  ghost predicate ReachesSlots(visits: seq<Visit>, storage: map<B256, nat>) {
    forall slot :: slot in storage ==> ReachesSlot(visits, slot, storage[slot])
  }

  ghost predicate ReachesSlot(visits: seq<Visit>, slot: B256, value: nat) {
    if value == 0 then Drops(visits, ToNibs(slot)) else Visits(visits, ToNibs(slot))
  }

  ghost predicate ReachesTouched(visits: StateVisits, state: State, address: B256, keys: seq<B256>) {
    && Visits(visits.accounts, ToNibs(address))
    && (address in state.storages && keys != [] ==>
          && address in visits.storages
          && VisitsAll(visits.storages[address], keys))
  }

  ghost predicate VisitsAll(visits: seq<Visit>, keys: seq<B256>) {
    forall key :: key in keys ==> Visits(visits, ToNibs(key))
  }

  /** Nothing else is visited: removed accounts and zero slots are deleted, the others looked up. */
  ghost predicate Asked(
      visits: StateVisits, state: State, diff: HashedPostState, touched: map<B256, seq<B256>>)
  {
    && (forall visit :: visit in visits.accounts ==> AccountAsked(visit, state, diff, touched))
    && forall a :: a in visits.storages ==> SlotsAsked(visits.storages[a], a, diff, touched)
  }

  ghost predicate AccountAsked(visit: Visit, state: State, diff: HashedPostState, touched: map<B256, seq<B256>>) {
    exists a: B256 :: visit.key == ToNibs(a) &&
      if visit.Drop? then a in diff.accounts && diff.accounts[a].None?
      else a in touched || (a in diff.accounts && diff.accounts[a].Some? && a in state.storages)
  }

  ghost predicate SlotsAsked(visits: seq<Visit>, a: B256, diff: HashedPostState, touched: map<B256, seq<B256>>) {
    forall visit :: visit in visits ==> SlotAsked(visit, a, diff, touched)
  }

  ghost predicate SlotAsked(visit: Visit, a: B256, diff: HashedPostState, touched: map<B256, seq<B256>>) {
    || (a in diff.accounts && diff.accounts[a].Some? && SlotChange(visit, StorageOf(diff, a).storage))
    || (a in touched && KeyLookup(visit, touched[a]))
  }

  ghost predicate SlotChange(visit: Visit, storage: map<B256, nat>) {
    exists slot :: slot in storage && visit == if storage[slot] == 0 then Drop(ToNibs(slot)) else Look(ToNibs(slot))
  }

  ghost predicate KeyLookup(visit: Visit, keys: seq<B256>) {
    exists key :: key in keys && visit == Look(ToNibs(key))
  }

  /** The marks are what the visits collect. */
  ghost predicate Collected(visits: StateVisits, state: State, marks: Marks) {
    && Collect(state.accounts, visits.accounts) == Some(marks.accounts)
    && marks.storages.Keys == visits.storages.Keys <= state.storages.Keys
    && forall a :: a in visits.storages ==>
         Collect(state.storages[a], visits.storages[a]) == Some(marks.storages[a])
  }

  /** The state with every trie that has marks pruned by them. */
  ghost function PruneState(state: State, marks: Marks): State {
    State(Prune(state.accounts, marks.accounts),
          map a | a in state.storages ::
            if a in marks.storages then Prune(state.storages[a], marks.storages[a]) else state.storages[a])
  }

  ghost predicate CleanState(state: State) {
    Clean(state.accounts) && forall a :: a in state.storages ==> Clean(state.storages[a])
  }

  // Changes as runs of updates.

  lemma Enumerate(keys: set<B256>) returns (order: seq<B256>)
    ensures forall key :: key in keys <==> key in order
    ensures forall i, j :: 0 <= i < j < |order| ==> order[i] != order[j]
  {
    order := [];
    var rest := keys;
    while rest != {}
      invariant rest <= keys
      invariant forall key :: key in keys <==> key in rest || key in order
      invariant forall key :: key in order ==> key !in rest
      invariant forall i, j :: 0 <= i < j < |order| ==> order[i] != order[j]
      decreases rest
    {
      var key :| key in rest;
      rest, order := rest - {key}, order + [key];
    }
  }

  function SlotOps(order: seq<B256>, storage: map<B256, nat>): (ops: seq<Op>)
    requires forall i :: 0 <= i < |order| ==> order[i] in storage
    ensures |ops| == |order|
    ensures forall i :: 0 <= i < |ops| ==> ops[i] == SlotOp(order[i], storage[order[i]])
  {
    seq(|order|, i requires 0 <= i < |order| => SlotOp(order[i], storage[order[i]]))
  }

  /** Updates of distinct hashed keys, and what each key is afterwards. */
  lemma RunByKey(n: Node, order: seq<B256>, ops: seq<Op>)
    requires HashedTrie(n) && Run(n, ops).Some? && |order| == |ops|
    requires forall i :: 0 <= i < |ops| ==> ops[i].key == ToNibs(order[i])
    requires forall i, j :: 0 <= i < j < |order| ==> order[i] != order[j]
    ensures forall i :: 0 <= i < |ops| ==> Find(Run(n, ops).value, ToNibs(order[i])) == After(ops[i])
    ensures forall path :: (forall i :: 0 <= i < |ops| ==> ops[i].key != path) ==>
      Find(Run(n, ops).value, path) == Find(n, path)
  {
    RunRefines(n, ops);
    forall i, j | 0 <= i < j < |ops| ensures ops[i].key != ops[j].key {
      if ToNibs(order[i]) == ToNibs(order[j]) {
        ToNibsInjective(order[i], order[j]);
      }
    }
    forall i | 0 <= i < |ops| ensures Find(Run(n, ops).value, ToNibs(order[i])) == After(ops[i]) {
      OutcomeAt(Find(n, ops[i].key), ops, i);
    }
    forall path | forall i :: 0 <= i < |ops| ==> ops[i].key != path
      ensures Find(Run(n, ops).value, path) == Find(n, path)
    {
      OutcomeElsewhere(Find(n, path), ops, path);
    }
  }

  /** Applying slot changes is running them, in any order. */
  lemma StorageRuns(n: Node, storage: HashedStorage, order: seq<B256>, after: Node)
    requires HashedTrie(n) && !storage.wiped && StorageResolvable(n, storage)
    requires forall slot :: slot in storage.storage <==> slot in order
    requires forall i, j :: 0 <= i < j < |order| ==> order[i] != order[j]
    requires HashedTrie(after) && StorageApplied(n, storage, storage.storage.Keys, after)
    ensures Run(n, SlotOps(order, storage.storage)) == Some(after)
  {
    var ops := SlotOps(order, storage.storage);
    forall i | 0 <= i < |ops| ensures |ops[i].key| == 64 && !Find(n, ops[i].key).Blocked? {
      assert order[i] in storage.storage;
    }
    RunGoesThrough(n, 64, ops);
    RunApplies(n, storage, order);
    StorageDetermined(n, storage, Run(n, ops).value, after);
  }

  /** A run of slot changes that goes through applies them. */
  lemma RunApplies(n: Node, storage: HashedStorage, order: seq<B256>)
    requires HashedTrie(n) && !storage.wiped
    requires forall slot :: slot in storage.storage <==> slot in order
    requires forall i, j :: 0 <= i < j < |order| ==> order[i] != order[j]
    requires Run(n, SlotOps(order, storage.storage)).Some?
    ensures StorageApplied(n, storage, storage.storage.Keys, Run(n, SlotOps(order, storage.storage)).value)
  {
    var ops := SlotOps(order, storage.storage);
    RunByKey(n, order, ops);
    var result := Run(n, ops).value;
    forall slot | slot in storage.storage.Keys
      ensures Find(result, ToNibs(slot)) == After(SlotOp(slot, storage.storage[slot]))
    {
      var i :| 0 <= i < |order| && order[i] == slot;
      assert ops[i] == SlotOp(slot, storage.storage[slot]);
    }
    forall path | !IsKeyOf(storage.storage.Keys, path) ensures Find(result, path) == Find(n, path) {
      forall i | 0 <= i < |ops| ensures ops[i].key != path {
        assert order[i] in storage.storage.Keys;
      }
    }
  }

  // Pruning keeps keys at their depth.

  lemma BranchesAbove(n: Node, length: nat)
    requires Canonical(n) && Uniform(n, length) && n.Branch?
    ensures length > 0
  {
    var key := SomeKey(n);
    assert AtDepth(Find(n, key), key, length);
    assert key != [] && (Find(n, key).Blocked? ==> |Find(n, key).rest| < |key|);
  }

  /** The stub of a node is no deeper than the entries below the node. */
  lemma StubUniform(n: Node, length: nat)
    requires Canonical(n) && Uniform(n, length) && !n.Null?
    ensures Uniform(Stub(n), length)
  {
    forall key ensures AtDepth(Find(Stub(n), key), key, length) {}
  }

  lemma {:induction false} CutUniform(n: Node, keep: Node -> bool, length: nat)
    requires Canonical(n) && Uniform(n, length)
    ensures Uniform(Cut(n, keep), length)
    decreases n
  {
    var cut := Cut(n, keep);
    if !n.Null? && !keep(n) {
      StubUniform(n, length);
    } else if n.Branch? {
      BranchesAbove(n, length);
      forall key ensures AtDepth(Find(cut, key), key, length) {
        if key != [] {
          UniformChild(n, length, key[0]);
          CutUniform(n.children[key[0]], keep, length - 1);
          assert AtDepth(Find(Cut(n.children[key[0]], keep), key[1..]), key[1..], length - 1);
        }
      }
    } else if n.Extension? {
      UniformBehind(n, length);
      CutUniform(n.child, keep, length - |n.path|);
      forall key ensures AtDepth(Find(cut, key), key, length) {
        if n.path <= key {
          var rest := key[|n.path|..];
          assert AtDepth(Find(Cut(n.child, keep), rest), rest, length - |n.path|);
        }
      }
    } else if n.Digest? {
      StubUniform(n, length);
    }
  }

  lemma UniformChild(n: Node, length: nat, i: Nibble)
    requires Canonical(n) && n.Branch? && Uniform(n, length) && length > 0
    ensures Uniform(n.children[i], length - 1)
  {
    forall rest ensures AtDepth(Find(n.children[i], rest), rest, length - 1) {
      assert ([i] + rest)[1..] == rest;
      assert AtDepth(Find(n, [i] + rest), [i] + rest, length);
    }
  }

  lemma UniformBehind(n: Node, length: nat)
    requires Canonical(n) && n.Extension? && Uniform(n, length)
    ensures |n.path| <= length && Uniform(n.child, length - |n.path|)
  {
    var rest := SomeKey(n.child);
    var key := n.path + rest;
    assert key[|n.path|..] == rest;
    assert AtDepth(Find(n, key), key, length);
    forall rest ensures AtDepth(Find(n.child, rest), rest, length - |n.path|) {
      assert (n.path + rest)[|n.path|..] == rest;
      assert AtDepth(Find(n, n.path + rest), n.path + rest, length);
    }
  }

  lemma PruneHashedTrie(n: Node, marks: set<Reference>)
    requires HashedTrie(n) && Clean(n)
    ensures HashedTrie(Prune(n, marks))
  {
    NothingNeeded(n, iset{});
    CutStands(n, KeepMarked(marks), iset{}, iset{}, iset{});
    CutWellFormed(n, KeepMarked(marks));
    StandsCanonical(Prune(n, marks), n, iset{});
    CutUniform(n, KeepMarked(marks), 64);
  }

  // One storage trie.

  lemma DropIsVisit(visits: seq<Visit>, key: Path)
    requires Drops(visits, key)
    ensures Visits(visits, key)
  {
    var i :| 0 <= i < |visits| && visits[i] == Drop(key);
    assert visits[i].key == key;
  }

  lemma StorageStaysResolvable(n: Node, visits: seq<Visit>, marks: set<Reference>, storage: HashedStorage)
    requires HashedTrie(n) && Clean(n) && Collect(n, visits) == Some(marks)
    requires ReachesSlots(visits, storage.storage) && StorageResolvable(n, storage)
    ensures StorageResolvable(Prune(n, marks), storage)
  {
    if !storage.wiped {
      forall slot | slot in storage.storage ensures !Find(Prune(n, marks), ToNibs(slot)).Blocked? {
        assert ReachesSlot(visits, slot, storage.storage[slot]);
        if storage.storage[slot] == 0 {
          DropIsVisit(visits, ToNibs(slot));
        }
        PruneKeepsVisited(n, visits, marks, ToNibs(slot));
      }
    }
  }

  /** A storage trie and its pruned version have the same root after the same changes. */
  lemma StorageRootsAgree(
      n: Node, visits: seq<Visit>, marks: set<Reference>, storage: HashedStorage, whole: Node, pruned: Node)
    requires HashedTrie(n) && Clean(n) && Collect(n, visits) == Some(marks)
    requires ReachesSlots(visits, storage.storage) && StorageResolvable(n, storage)
    requires HashedTrie(whole) && StorageApplied(n, storage, storage.storage.Keys, whole)
    requires HashedTrie(pruned) && StorageApplied(Prune(n, marks), storage, storage.storage.Keys, pruned)
    ensures Hash(whole) == Hash(pruned)
  {
    if storage.wiped {
      StorageDetermined(n, storage, whole, pruned);
    } else {
      var order := Enumerate(storage.storage.Keys);
      var ops := SlotOps(order, storage.storage);
      PruneHashedTrie(n, marks);
      StorageStaysResolvable(n, visits, marks, storage);
      StorageRuns(n, storage, order, whole);
      StorageRuns(Prune(n, marks), storage, order, pruned);
      forall i | 0 <= i < |ops|
        ensures Visits(visits, ops[i].key) && (ops[i].Remove? ==> Drops(visits, ops[i].key))
      {
        assert order[i] in storage.storage;
        assert ReachesSlot(visits, order[i], storage.storage[order[i]]);
        if storage.storage[order[i]] == 0 {
          DropIsVisit(visits, ToNibs(order[i]));
        }
      }
      PruneAdequate(n, visits, marks, ops);
    }
  }

  // The whole state.

  /** `later` is `diff` with some accounts left out. */
  ghost predicate Within(later: HashedPostState, diff: HashedPostState) {
    && later.accounts.Keys <= diff.accounts.Keys
    && (forall a :: a in later.accounts ==> later.accounts[a] == diff.accounts[a])
    && later.storages == diff.storages
  }

  /** Everything the pruning of a state starts from. */
  ghost predicate PruningOf(
      state: State, diff: HashedPostState, touched: map<B256, seq<B256>>, visits: StateVisits, marks: Marks)
  {
    && WellShaped(state) && CleanState(state)
    && Reaches(visits, state, diff, touched)
    && Collected(visits, state, marks)
  }

  lemma AccountVisited(
      state: State, diff: HashedPostState, touched: map<B256, seq<B256>>, visits: StateVisits, a: B256)
    requires Reaches(visits, state, diff, touched) && a in diff.accounts && a in touched
    ensures Visits(visits.accounts, ToNibs(a))
  {
    assert ReachesTouched(visits, state, a, touched[a]);
  }

  /** The storage trie of a changed account is pruned by what reaches all its changed slots. */
  lemma StorageReached(
      state: State, diff: HashedPostState, touched: map<B256, seq<B256>>, visits: StateVisits, marks: Marks, a: B256)
    requires PruningOf(state, diff, touched, visits, marks)
    requires a in diff.accounts && diff.accounts[a].Some? && a in state.storages
    ensures a in visits.storages && a in marks.storages
    ensures PruneState(state, marks).storages[a] == Prune(state.storages[a], marks.storages[a])
    ensures HashedTrie(state.storages[a]) && Clean(state.storages[a])
    ensures Collect(state.storages[a], visits.storages[a]) == Some(marks.storages[a])
    ensures ReachesSlots(visits.storages[a], StorageOf(diff, a).storage)
  {
    assert ReachesAccount(visits, state, diff, a);
  }

  lemma AccountStaysResolvable(
      state: State, diff: HashedPostState, touched: map<B256, seq<B256>>, visits: StateVisits, marks: Marks, a: B256)
    requires PruningOf(state, diff, touched, visits, marks)
    requires a in diff.accounts && a in touched && AccountResolvable(state, diff, a)
    ensures AccountResolvable(PruneState(state, marks), diff, a)
  {
    AccountVisited(state, diff, touched, visits, a);
    PruneKeepsVisited(state.accounts, visits.accounts, marks.accounts, ToNibs(a));
    if diff.accounts[a].Some? && a in state.storages {
      StorageReached(state, diff, touched, visits, marks, a);
      StorageStaysResolvable(state.storages[a], visits.storages[a], marks.storages[a], StorageOf(diff, a));
    }
  }

  /** The pruned state can take all changes that the whole state can take. */
  lemma PrunedResolvable(
      state: State, diff: HashedPostState, touched: map<B256, seq<B256>>, visits: StateVisits, marks: Marks,
      later: HashedPostState)
    requires PruningOf(state, diff, touched, visits, marks)
    requires diff.accounts.Keys <= touched.Keys
    requires Within(later, diff) && Resolvable(state, later)
    ensures Resolvable(PruneState(state, marks), later)
  {
    var pruned := PruneState(state, marks);
    forall a | a in later.accounts ensures AccountResolvable(pruned, later, a) {
      assert AccountResolvable(state, later, a);
      assert StorageOf(later, a) == StorageOf(diff, a);
      AccountStaysResolvable(state, diff, touched, visits, marks, a);
    }
  }

  lemma AccountRootsAgree(
      state: State, diff: HashedPostState, touched: map<B256, seq<B256>>, visits: StateVisits, marks: Marks,
      later: HashedPostState, whole: State, pruned: State, a: B256)
    requires PruningOf(state, diff, touched, visits, marks)
    requires Within(later, diff) && Resolvable(state, later)
    requires Applied(state, later, later.accounts.Keys, whole)
    requires Applied(PruneState(state, marks), later, later.accounts.Keys, pruned)
    requires a in later.accounts && later.accounts[a].Some?
    ensures a in whole.storages && a in pruned.storages
    ensures Hash(whole.storages[a]) == Hash(pruned.storages[a])
  {
    assert AccountApplied(state, later, a, whole);
    assert AccountApplied(PruneState(state, marks), later, a, pruned);
    assert AccountResolvable(state, later, a);
    assert HashedTrie(whole.storages[a]) && HashedTrie(pruned.storages[a]);
    var storage := StorageOf(diff, a);
    assert StorageOf(later, a) == storage;
    if a in state.storages {
      StorageReached(state, diff, touched, visits, marks, a);
      StorageRootsAgree(state.storages[a], visits.storages[a], marks.storages[a], storage,
                        whole.storages[a], pruned.storages[a]);
    } else {
      StorageDetermined(Null, storage, whole.storages[a], pruned.storages[a]);
    }
  }

  function AccountOp(address: B256, account: Option<Account>, after: State): Op {
    match account
    case None => Remove(ToNibs(address))
    case Some(a) => Put(ToNibs(address), EncodeAccount(a, Hash(TrieOf(after, address))))
  }

  function AccountOps(order: seq<B256>, diff: HashedPostState, after: State): (ops: seq<Op>)
    requires forall i :: 0 <= i < |order| ==> order[i] in diff.accounts
    ensures |ops| == |order|
    ensures forall i :: 0 <= i < |ops| ==> ops[i] == AccountOp(order[i], diff.accounts[order[i]], after)
  {
    seq(|order|, i requires 0 <= i < |order| => AccountOp(order[i], diff.accounts[order[i]], after))
  }

  /** Applying account changes to the state trie is running them, in any order. */
  lemma AccountsRun(before: State, diff: HashedPostState, order: seq<B256>, after: State)
    requires WellShaped(before) && Resolvable(before, diff)
    requires forall a :: a in diff.accounts <==> a in order
    requires forall i, j :: 0 <= i < j < |order| ==> order[i] != order[j]
    requires Applied(before, diff, diff.accounts.Keys, after)
    ensures Run(before.accounts, AccountOps(order, diff, after)) == Some(after.accounts)
  {
    var n, ops := before.accounts, AccountOps(order, diff, after);
    forall i | 0 <= i < |ops| ensures |ops[i].key| == 64 && !Find(n, ops[i].key).Blocked? {
      assert AccountResolvable(before, diff, order[i]);
    }
    RunGoesThrough(n, 64, ops);
    RunByKey(n, order, ops);
    var result := Run(n, ops).value;
    forall path ensures Find(result, path) == Find(after.accounts, path) {
      if IsKeyOf(diff.accounts.Keys, path) {
        var a :| a in diff.accounts.Keys && ToNibs(a) == path;
        var i :| 0 <= i < |order| && order[i] == a;
        assert AccountApplied(before, diff, a, after);
        assert Find(result, ToNibs(order[i])) == After(ops[i]);
      } else {
        forall i | 0 <= i < |ops| ensures ops[i].key != path {
          assert order[i] in diff.accounts.Keys;
        }
      }
    }
    CanonicalUnique(result, after.accounts);
  }

  /**
   * Pruning is adequate for execution: if the touched state covers every account of the changes
   * and the whole state can take the changes, the pruned state can take them, and whatever the
   * orders in which they are applied on the two sides, the state roots are the same.
   */
  lemma PrunedStateAdequate(
      state: State, diff: HashedPostState, touched: map<B256, seq<B256>>, visits: StateVisits, marks: Marks,
      later: HashedPostState, whole: State, pruned: State)
    requires PruningOf(state, diff, touched, visits, marks)
    requires diff.accounts.Keys <= touched.Keys
    requires Within(later, diff) && Resolvable(state, later)
    requires Applied(state, later, later.accounts.Keys, whole)
    requires Applied(PruneState(state, marks), later, later.accounts.Keys, pruned)
    ensures Resolvable(PruneState(state, marks), later)
    ensures Hash(pruned.accounts) == Hash(whole.accounts)
  {
    var start := PruneState(state, marks);
    PrunedResolvable(state, diff, touched, visits, marks, later);
    var order := Enumerate(later.accounts.Keys);
    PruneStateShaped(state, marks);
    AccountsRun(state, later, order, whole);
    AccountsRun(start, later, order, pruned);
    var ops := AccountOps(order, later, whole);
    forall i | 0 <= i < |ops|
      ensures ops[i] == AccountOps(order, later, pruned)[i]
      ensures Visits(visits.accounts, ops[i].key)
      ensures ops[i].Remove? ==> Drops(visits.accounts, ops[i].key)
    {
      var a := order[i];
      assert a in later.accounts;
      AccountVisited(state, diff, touched, visits, a);
      assert ReachesAccount(visits, state, diff, a);
      if later.accounts[a].Some? {
        AccountRootsAgree(state, diff, touched, visits, marks, later, whole, pruned, a);
      }
    }
    assert ops == AccountOps(order, later, pruned);
    PruneAdequate(state.accounts, visits.accounts, marks.accounts, ops);
  }

  lemma PruneStateShaped(state: State, marks: Marks)
    requires WellShaped(state) && CleanState(state)
    ensures WellShaped(PruneState(state, marks))
  {
    PruneHashedTrie(state.accounts, marks.accounts);
    forall a | a in state.storages ensures HashedTrie(PruneState(state, marks).storages[a]) {
      if a in marks.storages {
        PruneHashedTrie(state.storages[a], marks.storages[a]);
      }
    }
  }
}
