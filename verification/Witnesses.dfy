/** The witnesses of the subblocks: the big state is pruned for each subblock, and then takes its changes. */
module Witnesses {
  import opened Primitives
  import opened Nibbles
  import opened Trie
  import opened NodeCodec
  import opened Pruning
  import opened StateMap
  import opened StatePruning
  import opened StateTouching
  import opened EthereumStates

  predicate IsEmpty(account: Account) {
    account.nonce == 0 && account.balance == 0 && account.codeHash == KECCAK([])
  }

  predicate Retains(account: Option<Account>) {
    account.None? || !IsEmpty(account.value)
  }

  /** The changes without the accounts that end up empty. */
  function Retained(diff: HashedPostState): HashedPostState {
    diff.(accounts := map a | a in diff.accounts && Retains(diff.accounts[a]) :: diff.accounts[a])
  }

  /**
   * By lookups: a removed account is gone, and one with a nonce, a balance or code is there with its
   * storage; one that ends up without any of these is left as it was, like all others.
   */
  ghost predicate AccountOutcome(before: State, diff: HashedPostState, a: B256, after: State) {
    if a !in diff.accounts then AccountKept(before, a, after)
    else
      match diff.accounts[a]
      case None => Find(after.accounts, ToNibs(a)) == Missing && SameStorage(before, a, after)
      case Some(account) =>
        if account.nonce > 0 || account.balance > 0 || account.codeHash != KECCAK([]) then
          && HasAccount(after, a, account)
          && HasSlots(TrieOf(before, a), StorageOf(diff, a), TrieOf(after, a))
        else AccountKept(before, a, after)
  }

  ghost predicate SubblockTaken(before: State, diff: HashedPostState, after: State) {
    && (forall a :: AccountOutcome(before, diff, a, after))
    && (forall path :: !IsKeyOf(diff.accounts.Keys, path) ==>
          Find(after.accounts, path) == Find(before.accounts, path))
  }

  lemma RetainedTaken(before: State, diff: HashedPostState, after: State)
    requires Applied(before, Retained(diff), Retained(diff).accounts.Keys, after) && InRange(diff)
    ensures SubblockTaken(before, diff, after)
  {
    var changes := Retained(diff);
    AppliedTaken(before, changes, after);
    forall a ensures AccountOutcome(before, diff, a, after) {
      RetainedOutcome(before, diff, a, after);
    }
    forall path | !IsKeyOf(diff.accounts.Keys, path) ensures !IsKeyOf(changes.accounts.Keys, path) {
      assert forall key :: key in changes.accounts.Keys ==> key in diff.accounts.Keys;
    }
  }

  lemma RetainedOutcome(before: State, diff: HashedPostState, a: B256, after: State)
    requires Taken(before, Retained(diff), Retained(diff).accounts.Keys, after)
    ensures AccountOutcome(before, diff, a, after)
  {
    var changes := Retained(diff);
    assert StorageOf(changes, a) == StorageOf(diff, a);
    if a in changes.accounts {
      assert AccountTaken(before, changes, a, after);
    } else {
      assert AccountKept(before, a, after);
    }
  }

  // Updates leave no residues.

  lemma UpdateKeepsClean(before: State, diff: HashedPostState, after: State)
    requires WellShaped(before) && CleanState(before)
    requires Applied(before, diff, diff.accounts.Keys, after)
    ensures CleanState(after)
  {
    forall path ensures CleanLookup(Find(after.accounts, path)) {
      CleanFinds(before.accounts, path);
      if IsKeyOf(diff.accounts.Keys, path) {
        var a :| a in diff.accounts.Keys && ToNibs(a) == path;
        assert AccountApplied(before, diff, a, after);
      }
    }
    FindsClean(after.accounts);
    forall a | a in after.storages ensures Clean(after.storages[a]) {
      if a in diff.accounts {
        assert AccountApplied(before, diff, a, after);
        if diff.accounts[a].Some? {
          StorageKeepsClean(TrieOf(before, a), StorageOf(diff, a), after.storages[a]);
        }
      } else {
        assert SameStorage(before, a, after);
      }
    }
  }

  lemma StorageKeepsClean(before: Node, storage: HashedStorage, after: Node)
    requires Canonical(before) && Canonical(after) && Clean(before)
    requires StorageApplied(before, storage, storage.storage.Keys, after)
    ensures Clean(after)
  {
    forall path ensures CleanLookup(Find(after, path)) {
      CleanFinds(if storage.wiped then Null else before, path);
      if IsKeyOf(storage.storage.Keys, path) {
        var slot :| slot in storage.storage.Keys && ToNibs(slot) == path;
      }
    }
    FindsClean(after);
  }

  // What a witness is worth.

  /** The changes of one subblock and what it touches, by hashed address and hashed slot. */
  datatype SubblockDiff = SubblockDiff(diff: HashedPostState, touched: map<B256, seq<B256>>)

  /** A pruned state and the references that were kept. */
  datatype Witness = Witness(marks: Marks, pruned: State)

  /** The witness is the state, pruned for the changes and the touched keys. */
  ghost predicate WitnessFor(state: State, d: SubblockDiff, w: Witness) {
    exists visits: StateVisits :: Prunes(state, d, visits, w)
  }

  ghost predicate Prunes(state: State, d: SubblockDiff, visits: StateVisits, w: Witness) {
    && PruningOf(state, d.diff, d.touched, visits, w.marks) && Asked(visits, state, d.diff, d.touched)
    && w.pruned == PruneState(state, w.marks)
  }

  /** Pruning cuts a node with a short encoding away, from the state trie or from a storage trie. */
  ghost predicate CutsShortState(state: State, marks: Marks) {
    || CutsShort(state.accounts, KeepMarked(marks.accounts))
    || exists a :: a in state.storages && CutsShortStorage(state, marks, a)
  }

  predicate CutsShortStorage(state: State, marks: Marks, a: B256)
    requires a in state.storages
  {
    a in marks.storages && CutsShort(state.storages[a], KeepMarked(marks.storages[a]))
  }

  lemma CleanPruned(state: State, marks: Marks)
    requires CleanState(state)
    ensures CleanState(PruneState(state, marks)) <==> !CutsShortState(state, marks)
  {
    CutClean(state.accounts, KeepMarked(marks.accounts));
    forall a | a in state.storages
      ensures Clean(PruneState(state, marks).storages[a]) <==> !CutsShortStorage(state, marks, a)
    {
      if a in marks.storages {
        CutClean(state.storages[a], KeepMarked(marks.storages[a]));
      }
    }
  }

  /** A state whose branches and extensions all have encodings of at least 32 bytes. */
  predicate LongState(state: State) {
    LongNodes(state.accounts) && forall a :: a in state.storages ==> LongNodes(state.storages[a])
  }

  /** From such a state nothing short is cut away, whatever is marked. */
  lemma LongStateSafe(state: State, marks: Marks)
    requires LongState(state) && CleanState(state)
    ensures !CutsShortState(state, marks)
  {
    LongNodesSafe(state.accounts, marks.accounts);
    forall a | a in state.storages ensures !CutsShortStorage(state, marks, a) {
      if a in marks.storages {
        LongNodesSafe(state.storages[a], marks.storages[a]);
      }
    }
  }

  /** A state after it was written out and read back. */
  ghost function ReloadState(state: State): State {
    State(Reload(state.accounts), map a | a in state.storages :: Reload(state.storages[a]))
  }

  lemma CleanReload(state: State)
    requires CleanState(state)
    ensures ReloadState(state) == state
  {
    ReloadClean(state.accounts);
    forall a | a in state.storages ensures Reload(state.storages[a]) == state.storages[a] {
      ReloadClean(state.storages[a]);
    }
    assert ReloadState(state).storages == state.storages;
  }

  /** A witness from which nothing short was cut away is read back as it was written. */
  lemma WitnessReloads(state: State, d: SubblockDiff, w: Witness)
    requires WitnessFor(state, d, w) && !CutsShortState(state, w.marks)
    ensures ReloadState(w.pruned) == w.pruned
  {
    CleanPruned(state, w.marks);
    CleanReload(w.pruned);
  }

  /**
   * The witness is enough for the subblock: as long as nothing short is cut away, what the other
   * side reads has the state root that the big state has before the subblock, it takes the changes,
   * and it ends with the state root that the big state has after the subblock.
   */
  lemma WitnessSuffices(state: State, d: SubblockDiff, w: Witness, after: State, result: State)
    requires WitnessFor(state, d, w) && !CutsShortState(state, w.marks)
    requires d.diff.accounts.Keys <= d.touched.Keys
    requires var changes := Retained(d.diff);
      && Resolvable(state, changes) && Applied(state, changes, changes.accounts.Keys, after)
      && Applied(ReloadState(w.pruned), changes, changes.accounts.Keys, result)
    ensures Hash(ReloadState(w.pruned).accounts) == Hash(state.accounts)
    ensures Resolvable(ReloadState(w.pruned), Retained(d.diff))
    ensures Hash(result.accounts) == Hash(after.accounts)
  {
    var visits :| Prunes(state, d, visits, w);
    WitnessReloads(state, d, w);
    PruneKeepsRoot(state.accounts, w.marks.accounts);
    PrunedStateAdequate(state, d.diff, d.touched, visits, w.marks, Retained(d.diff), after, result);
  }

  lemma PrunedWitnessRoot(state: State, d: SubblockDiff, w: Witness)
    requires WitnessFor(state, d, w)
    ensures Hash(w.pruned.accounts) == Hash(state.accounts)
  {
    PruneKeepsRoot(state.accounts, w.marks.accounts);
  }

  lemma WitnessTakes(state: State, d: SubblockDiff, w: Witness)
    requires WitnessFor(state, d, w) && !CutsShortState(state, w.marks)
    requires d.diff.accounts.Keys <= d.touched.Keys && Resolvable(state, Retained(d.diff))
    ensures WellShaped(ReloadState(w.pruned)) && Resolvable(ReloadState(w.pruned), Retained(d.diff))
  {
    var visits :| Prunes(state, d, visits, w);
    WitnessReloads(state, d, w);
    PruneStateShaped(state, w.marks);
    PrunedResolvable(state, d.diff, d.touched, visits, w.marks, Retained(d.diff));
  }

  /** The witness answers every touched address and slot as the big state does. */
  lemma WitnessAnswers(state: State, d: SubblockDiff, w: Witness, a: B256, slot: B256)
    requires WitnessFor(state, d, w) && !CutsShortState(state, w.marks) && a in d.touched
    ensures Get(ReloadState(w.pruned).accounts, ToNibs(a)) == Get(state.accounts, ToNibs(a))
    ensures a in ReloadState(w.pruned).storages <==> a in state.storages
    ensures a in state.storages && slot in d.touched[a] ==>
      Get(ReloadState(w.pruned).storages[a], ToNibs(slot)) == Get(state.storages[a], ToNibs(slot))
  {
    var visits :| Prunes(state, d, visits, w);
    WitnessReloads(state, d, w);
    assert ReachesTouched(visits, state, a, d.touched[a]);
    PruneKeepsVisited(state.accounts, visits.accounts, w.marks.accounts, ToNibs(a));
    if a in state.storages && slot in d.touched[a] {
      PruneKeepsVisited(state.storages[a], visits.storages[a], w.marks.storages[a], ToNibs(slot));
    }
  }

  /** The witness shows no more than that: every path is cut off at the first unmarked node that is not a leaf. */
  lemma WitnessHides(state: State, d: SubblockDiff, w: Witness, path: Path)
    requires WitnessFor(state, d, w)
    ensures ShownByMarks(w.pruned.accounts, state.accounts, w.marks.accounts, path)
    ensures forall a :: a in state.storages && a in w.marks.storages ==>
      ShownByMarks(w.pruned.storages[a], state.storages[a], w.marks.storages[a], path)
  {
    PruneBlocks(state.accounts, w.marks.accounts, path);
    forall a | a in state.storages && a in w.marks.storages
      ensures ShownByMarks(w.pruned.storages[a], state.storages[a], w.marks.storages[a], path)
    {
      PruneBlocks(state.storages[a], w.marks.storages[a], path);
    }
  }

  ghost predicate ShownByMarks(pruned: Node, n: Node, marks: set<Reference>, path: Path) {
    Find(pruned, path).Blocked? <==> Find(n, path).Blocked? || UnmarkedOnPath(n, path, marks)
  }

  // The loop.

  datatype Roots = Roots(input: B256, output: B256)

  /** One subblock: the witness, the changes, and the roots before and after. */
  ghost predicate StepOf(before: State, d: SubblockDiff, w: Witness, roots: Roots, after: State) {
    && WitnessFor(before, d, w)
    && Resolvable(before, Retained(d.diff))
    && Applied(before, Retained(d.diff), Retained(d.diff).accounts.Keys, after)
    && roots == Roots(Hash(before.accounts), Hash(after.accounts))
  }

  ghost predicate Steps(states: seq<State>, diffs: seq<SubblockDiff>, witnesses: seq<Witness>, roots: seq<Roots>) {
    && |witnesses| == |roots| <= |diffs| && |states| == |roots| + 1
    && forall i :: 0 <= i < |roots| ==> StepOf(states[i], diffs[i], witnesses[i], roots[i], states[i + 1])
  }

  lemma OneMoreStep(
      states: seq<State>, diffs: seq<SubblockDiff>, witnesses: seq<Witness>, roots: seq<Roots>,
      w: Witness, step: Roots, after: State)
    requires Steps(states, diffs, witnesses, roots) && |roots| < |diffs|
    requires StepOf(states[|roots|], diffs[|roots|], w, step, after)
    ensures Steps(states + [after], diffs, witnesses + [w], roots + [step])
  {
    forall i | 0 <= i < |roots| ensures StepOf(states[i], diffs[i], witnesses[i], roots[i], states[i + 1]) {}
  }

  /** Over the whole run, what every subblock makes of the state. */
  lemma StepsTaken(
      states: seq<State>, diffs: seq<SubblockDiff>, witnesses: seq<Witness>, roots: seq<Roots>, i: nat)
    requires Steps(states, diffs, witnesses, roots) && i < |roots| && InRange(diffs[i].diff)
    ensures SubblockTaken(states[i], diffs[i].diff, states[i + 1])
  {
    assert StepOf(states[i], diffs[i], witnesses[i], roots[i], states[i + 1]);
    RetainedTaken(states[i], diffs[i].diff, states[i + 1]);
  }

  /** A subblock at which the loop panics: one of its changes meets an unresolved node. */
  ghost predicate Stuck(state: State, d: SubblockDiff) {
    !DropsResolvable(state, d.diff) || !Resolvable(state, Retained(d.diff))
  }

  /**
   * Prunes a copy of the state for every subblock and applies its changes to the state. The loop
   * stops only at changes that meet an unresolved node.
   */
  method ThreadDiffs(state: EthereumState, diffs: seq<SubblockDiff>)
      returns (ok: bool, roots: seq<Roots>, ghost states: seq<State>, ghost witnesses: seq<Witness>)
    requires state.Valid() && WellShaped(state.View()) && CleanState(state.View())
    modifies state, state.owned
    ensures Steps(states, diffs, witnesses, roots) && states[0] == old(state.View())
    ensures ok ==> |roots| == |diffs|
    ensures !ok ==> |roots| < |diffs| && Stuck(states[|roots|], diffs[|roots|])
  {
    roots, states, witnesses := [], [state.View()], [];
    while |roots| < |diffs|
      invariant state.Valid() && fresh(state.owned - old(state.owned))
      invariant WellShaped(state.View()) && CleanState(state.View())
      invariant Steps(states, diffs, witnesses, roots) && states[0] == old(state.View())
      invariant states[|roots|] == state.View()
      decreases |diffs| - |roots|
    {
      var d := diffs[|roots|];
      var step;
      ghost var w;
      ok, step, w := NextSubblock(state, d);
      if !ok {
        return;
      }
      OneMoreStep(states, diffs, witnesses, roots, w, step, state.View());
      roots, states, witnesses := roots + [step], states + [state.View()], witnesses + [w];
    }
    ok := true;
  }

  method NextSubblock(state: EthereumState, d: SubblockDiff)
      returns (ok: bool, roots: Roots, ghost w: Witness)
    requires state.Valid() && WellShaped(state.View()) && CleanState(state.View())
    modifies state, state.owned
    ensures state.Valid() && fresh(state.owned - old(state.owned))
    ensures ok <==> !Stuck(old(state.View()), d)
    ensures ok ==> StepOf(old(state.View()), d, w, roots, state.View())
    ensures ok && InRange(d.diff) ==> SubblockTaken(old(state.View()), d.diff, state.View())
    ensures ok ==> WellShaped(state.View()) && CleanState(state.View())
  {
    ghost var before := state.View();
    var inputRoot := state.StateRoot();
    ok, w := MakeWitness(state, d);
    roots := Roots(inputRoot, inputRoot);
    if !ok {
      return;
    }
    var outputRoot;
    ok, outputRoot := ApplyChanges(state, Retained(d.diff), before);
    roots := Roots(inputRoot, outputRoot);
    if ok {
      UpdateKeepsClean(before, Retained(d.diff), state.View());
      if InRange(d.diff) {
        RetainedTaken(before, d.diff, state.View());
      }
    }
  }

  method ApplyChanges(state: EthereumState, changes: HashedPostState, ghost before: State)
      returns (ok: bool, root: B256)
    requires state.Valid() && state.View() == before && WellShaped(before)
    modifies state, state.owned
    ensures state.Valid() && fresh(state.owned - old(state.owned))
    ensures ok <==> Resolvable(before, changes)
    ensures ok ==>
      Applied(before, changes, changes.accounts.Keys, state.View()) && root == Hash(state.View().accounts)
  {
    ok := state.Update(changes);
    root := EmptyRoot();
    if ok {
      root := state.StateRoot();
    }
  }

  /** A pruned copy; false is a panic in pruning or the failed assertion that the root is the same. */
  method MakeWitness(state: EthereumState, d: SubblockDiff) returns (ok: bool, ghost w: Witness)
    requires state.Valid() && WellShaped(state.View()) && CleanState(state.View())
    ensures ok <==> DropsResolvable(state.View(), d.diff)
    ensures ok ==> WitnessFor(state.View(), d, w)
  {
    ghost var before := state.View();
    var copy := state.CloneState();
    ok, w := PruneCopy(copy, d, before);
    assert state.View() == before;
  }

  method PruneCopy(copy: EthereumState, d: SubblockDiff, ghost start: State)
      returns (ok: bool, ghost w: Witness)
    requires copy.Valid() && copy.View() == start && WellShaped(start) && CleanState(start)
    modifies copy.owned
    ensures copy.Valid() && (ok <==> DropsResolvable(start, d.diff))
    ensures ok ==> WitnessFor(start, d, w) && w.pruned == copy.View()
  {
    var previous := copy.StateRoot();
    ghost var visits, marks;
    ok, visits, marks := copy.PruneTo(d.diff, d.touched);
    w := Witness(marks, copy.View());
    if ok {
      PrunedIsWitness(start, d, visits, w);
      var current := copy.StateRoot();
      ok := previous == current;
    }
  }

  lemma PrunedIsWitness(start: State, d: SubblockDiff, visits: StateVisits, w: Witness)
    requires WellShaped(start) && CleanState(start)
    requires Collected(visits, start, w.marks) && Reaches(visits, start, d.diff, d.touched)
    requires Asked(visits, start, d.diff, d.touched)
    requires w.pruned == PruneState(start, w.marks)
    ensures WitnessFor(start, d, w)
    ensures Hash(w.pruned.accounts) == Hash(start.accounts)
  {
    assert Prunes(start, d, visits, w);
    PrunedAccountsRoot(start, w.marks);
  }

  /**
   * What the other side makes of the witness of a state: nothing short is cut away, every changed
   * account is touched, and the changes are applied to what is read back.
   */
  ghost predicate Replayed(state: State, d: SubblockDiff, w: Witness, result: State) {
    && !CutsShortState(state, w.marks) && d.diff.accounts.Keys <= d.touched.Keys
    && Applied(ReloadState(w.pruned), Retained(d.diff), Retained(d.diff).accounts.Keys, result)
  }

  /**
   * Over the whole run: every subblock that is replayed from its witness starts with the root that
   * the one before it ended with, and ends with the root that was announced.
   */
  lemma {:induction false} ReplaysChain(
      states: seq<State>, diffs: seq<SubblockDiff>, witnesses: seq<Witness>, roots: seq<Roots>,
      results: seq<State>, i: nat)
    requires Steps(states, diffs, witnesses, roots) && |results| == |roots|
    requires forall j :: 0 <= j < |roots| ==> Replayed(states[j], diffs[j], witnesses[j], results[j])
    requires i < |roots|
    ensures Hash(ReloadState(witnesses[i].pruned).accounts)
      == if i == 0 then Hash(states[0].accounts) else Hash(results[i - 1].accounts)
    ensures Hash(results[i].accounts) == roots[i].output == Hash(states[i + 1].accounts)
  {
    assert StepOf(states[i], diffs[i], witnesses[i], roots[i], states[i + 1]);
    WitnessSuffices(states[i], diffs[i], witnesses[i], states[i + 1], results[i]);
    if i > 0 {
      ReplaysChain(states, diffs, witnesses, roots, results, i - 1);
    }
  }
}
