/** The state trie and the storage tries of the source, updated in place. */
module EthereumStates {
  import opened Primitives
  import opened Nibbles
  import opened Trie
  import opened TrieMap
  import opened TrieForm
  import opened TrieHistory
  import opened NodeCodec
  import opened Pruning
  import opened MptNodes
  import opened StateMap
  import opened StatePruning
  import opened StateTouching

  // One account after the other.

  /** Applying one more account. */
  lemma ApplyOneMore(
      before: State, diff: HashedPostState, done: set<B256>, current: State, a: B256, after: State)
    requires done <= diff.accounts.Keys && a in diff.accounts && a !in done
    requires Applied(before, diff, done, current) && Applied(current, diff, {a}, after)
    ensures Applied(before, diff, done + {a}, after)
  {
    assert forall b :: b !in done ==> SameStorage(before, b, current);
    assert forall b :: b !in {a} ==> SameStorage(current, b, after);
    forall b | b in done + {a} ensures AccountApplied(before, diff, b, after) {
      if b == a {
        assert AccountApplied(current, diff, a, after);
        assert SameStorage(before, a, current);
      } else {
        assert AccountApplied(before, diff, b, current);
        assert SameStorage(current, b, after);
        if ToNibs(a) == ToNibs(b) {
          ToNibsInjective(a, b);
        }
        assert !IsKeyOf({a}, ToNibs(b));
      }
    }
    forall path | !IsKeyOf(done + {a}, path) ensures Find(after.accounts, path) == Find(before.accounts, path) {
      assert !IsKeyOf(done, path) && !IsKeyOf({a}, path) by {
        assert a in done + {a};
        assert forall key :: key in done ==> key in done + {a};
      }
    }
  }

  /** Accounts that are still to come are as resolvable as they were at the start. */
  lemma StillResolvable(before: State, diff: HashedPostState, done: set<B256>, current: State, a: B256)
    requires done <= diff.accounts.Keys && a in diff.accounts && a !in done
    requires Applied(before, diff, done, current)
    ensures AccountResolvable(current, diff, a) <==> AccountResolvable(before, diff, a)
  {
    assert SameStorage(before, a, current);
    OtherKey(done, a);
  }

  lemma NothingApplied(state: State, diff: HashedPostState)
    requires WellShaped(state)
    ensures Applied(state, diff, {}, state)
  {}

  // One slot after the other.

  /** One key has a new value; all others are as before. */
  ghost predicate OneKeyChanged(before: Node, key: Path, value: Lookup, after: Node) {
    forall path :: Find(after, path) == if path == key then value else Find(before, path)
  }

  lemma StorageOneMore(
      before: Node, storage: HashedStorage, done: set<B256>, current: Node, slot: B256, after: Node)
    requires done <= storage.storage.Keys && slot in storage.storage && slot !in done
    requires StorageApplied(before, storage, done, current)
    requires OneKeyChanged(current, ToNibs(slot), After(SlotOp(slot, storage.storage[slot])), after)
    ensures StorageApplied(before, storage, done + {slot}, after)
  {
    forall other | other in done + {slot}
      ensures Find(after, ToNibs(other)) == After(SlotOp(other, storage.storage[other]))
    {
      if other != slot && ToNibs(other) == ToNibs(slot) {
        ToNibsInjective(other, slot);
      }
    }
    forall path | !IsKeyOf(done + {slot}, path)
      ensures Find(after, path) == Find(if storage.wiped then Null else before, path)
    {
      assert !IsKeyOf(done, path) by {
        assert forall key :: key in done ==> key in done + {slot};
      }
      assert slot in done + {slot};
    }
  }

  lemma SlotStillFree(before: Node, storage: HashedStorage, done: set<B256>, current: Node, slot: B256)
    requires done <= storage.storage.Keys && slot !in done
    requires StorageApplied(before, storage, done, current)
    ensures Find(current, ToNibs(slot)) == Find(if storage.wiped then Null else before, ToNibs(slot))
  {
    OtherKey(done, slot);
  }

  /** One update of a trie with hashed keys, in place. */
  method ApplyInPlace(trie: MptNode, key: B256, value: Option<Bytes>) returns (ok: bool)
    requires trie.Valid() && HashedTrie(trie.view)
    modifies trie.repr
    ensures trie.Valid() && fresh(trie.repr - old(trie.repr)) && HashedTrie(trie.view)
    ensures ok <==> !Find(old(trie.view), ToNibs(key)).Blocked?
    ensures ok ==>
      OneKeyChanged(old(trie.view), ToNibs(key), if value.None? then Missing else Found(value.value), trie.view)
  {
    ghost var op := if value.None? then Remove(ToNibs(key)) else Put(ToNibs(key), value.value);
    ghost var before := trie.view;
    UniformUpdates(before, 64, op);
    DeleteCanonical(before, ToNibs(key));
    var result: Result<bool, Error>;
    if value.None? {
      result := trie.Delete(key);
    } else {
      result := trie.InsertRlp(key, value.value);
    }
    ok := result.Success?;
    if ok {
      ApplyRefines(before, op);
      match op {
        case Put(k, v) => InsertRefines(before, k, v);
        case Remove(k) => DeleteRefines(before, k);
      }
    }
  }

  method UpdateSlot(
      trie: MptNode, slot: B256, storage: HashedStorage, ghost before: Node, ghost done: set<B256>)
    returns (ok: bool)
    requires trie.Valid() && HashedTrie(trie.view)
    requires done <= storage.storage.Keys && slot in storage.storage && slot !in done
    requires StorageApplied(before, storage, done, trie.view)
    modifies trie.repr
    ensures trie.Valid() && fresh(trie.repr - old(trie.repr)) && HashedTrie(trie.view)
    ensures ok <==> storage.wiped || !Find(before, ToNibs(slot)).Blocked?
    ensures ok ==> StorageApplied(before, storage, done + {slot}, trie.view)
  {
    ghost var current := trie.view;
    SlotStillFree(before, storage, done, current, slot);
    var value := storage.storage[slot];
    ok := ApplyInPlace(trie, slot, if value == 0 then None else Some(Rlp.EncodeUint(value)));
    if ok {
      StorageOneMore(before, storage, done, current, slot, trie.view);
    }
  }

  /** The changes of one account's storage; false is the panic at an unresolved node. */
  method UpdateStorage(trie: MptNode, storage: HashedStorage) returns (ok: bool)
    requires trie.Valid() && HashedTrie(trie.view)
    modifies trie.repr
    ensures trie.Valid() && fresh(trie.repr - old(trie.repr)) && HashedTrie(trie.view)
    ensures ok <==> StorageResolvable(old(trie.view), storage)
    ensures ok ==> StorageApplied(old(trie.view), storage, storage.storage.Keys, trie.view)
    ensures ok ==> HasSlots(old(trie.view), storage, trie.view)
  {
    ghost var before := trie.view;
    if storage.wiped {
      trie.Clear();
    }
    var remaining := storage.storage.Keys;
    ghost var done: set<B256> := {};
    while remaining != {}
      invariant trie.Valid() && fresh(trie.repr - old(trie.repr)) && HashedTrie(trie.view)
      invariant done + remaining == storage.storage.Keys && done !! remaining
      invariant StorageApplied(before, storage, done, trie.view)
      invariant storage.wiped || forall slot :: slot in done ==> !Find(before, ToNibs(slot)).Blocked?
      decreases remaining
    {
      var slot :| slot in remaining;
      ok := UpdateSlot(trie, slot, storage, before, done);
      if !ok {
        return;
      }
      remaining, done := remaining - {slot}, done + {slot};
    }
    AppliedSlots(before, storage, trie.view);
    ok := true;
  }

  /** Prunes a trie; false is the failed assertion that the root stays the same. */
  method PruneInPlace(trie: MptNode, refs: set<Reference>) returns (ok: bool)
    requires trie.Valid()
    modifies trie.repr
    ensures trie.Valid() && trie.repr <= old(trie.repr)
    ensures trie.view == Prune(old(trie.view), refs)
    ensures ok <==> Hash(trie.view) == Hash(old(trie.view))
  {
    var previous := trie.HashNode();
    trie.PruneUnmarkedNodes(refs);
    var current := trie.HashNode();
    ok := previous == current;
  }

  /** The storage tries of the given addresses are pruned, the others are not. */
  ghost predicate StoragesPruned(start: State, refs: map<B256, set<Reference>>, done: set<B256>, current: State)
    requires done <= refs.Keys
  {
    && current.storages.Keys == start.storages.Keys
    && forall a :: a in start.storages ==>
         current.storages[a] == (if a in done then Prune(start.storages[a], refs[a]) else start.storages[a])
  }

  lemma PrunedEverywhere(start: State, marks: Marks, current: State)
    requires marks.storages.Keys <= start.storages.Keys
    requires current.accounts == Prune(start.accounts, marks.accounts)
    requires StoragesPruned(start, marks.storages, marks.storages.Keys, current)
    ensures current == PruneState(start, marks)
  {
    assert current.storages == PruneState(start, marks).storages;
  }

  lemma PrunedAccountsRoot(start: State, marks: Marks)
    ensures CleanState(start) && WellShaped(start) ==>
      Hash(Prune(start.accounts, marks.accounts)) == Hash(start.accounts)
  {
    if CleanState(start) && WellShaped(start) {
      PruneKeepsRoot(start.accounts, marks.accounts);
    }
  }

  lemma StoragesPrunedOneMore(
      start: State, refs: map<B256, set<Reference>>, remaining: set<B256>, before: State, a: B256, after: State)
    requires a in remaining && remaining <= refs.Keys && refs.Keys <= start.storages.Keys
    requires StoragesPruned(start, refs, refs.Keys - remaining, before)
    requires OnlyStorageChanged(before, a, after) && after.storages[a] == Prune(before.storages[a], refs[a])
    ensures StoragesPruned(start, refs, refs.Keys - (remaining - {a}), after)
    ensures CleanState(start) && WellShaped(start) ==> Hash(after.storages[a]) == Hash(before.storages[a])
  {
    if CleanState(start) && WellShaped(start) {
      PruneKeepsRoot(start.storages[a], refs[a]);
    }
  }

  lemma TriesAdded(before: map<B256, Node>, a: B256, after: map<B256, Node>)
    requires after.Keys == before.Keys + {a} && a in after && after[a] == Null
    requires forall b :: b in before && b != a ==> after[b] == before[b]
    ensures after == before[a := Null]
  {}

  class EthereumState {
    var stateTrie: MptNode
    var storageTries: map<B256, MptNode>
    /** All nodes of all tries. */
    ghost var owned: set<MptNode>

    /** The tries are valid and share no node. */
    ghost predicate Valid()
      reads this, owned
    {
      && stateTrie in owned && stateTrie.repr <= owned && stateTrie.Valid()
      && (forall a :: a in storageTries ==>
            && storageTries[a] in owned && storageTries[a].repr <= owned && storageTries[a].Valid()
            && storageTries[a].repr !! stateTrie.repr)
      && (forall a, b :: a in storageTries && b in storageTries && a != b ==>
            storageTries[a].repr !! storageTries[b].repr)
    }

    ghost function View(): State
      requires Valid()
      reads this, owned
    {
      State(stateTrie.view, map a | a in storageTries :: storageTries[a].view)
    }

    constructor ()
      ensures Valid() && fresh(owned) && View() == State(Null, map[])
    {
      var trie := new MptNode();
      stateTrie, storageTries, owned := trie, map[], trie.repr;
    }

    constructor OfTries(accounts: MptNode, tries: map<B256, MptNode>, ghost nodes: set<MptNode>)
      requires accounts.Valid()
      requires forall a :: a in tries ==>
        && tries[a] in nodes && tries[a].repr <= nodes && tries[a].Valid() && tries[a].repr !! accounts.repr
      requires forall a, b :: a in tries && b in tries && a != b ==> tries[a].repr !! tries[b].repr
      ensures Valid() && owned == accounts.repr + nodes
      ensures View() == State(accounts.view, map a | a in tries :: tries[a].view)
    {
      stateTrie, storageTries, owned := accounts, tries, accounts.repr + nodes;
    }

    /** The root of the state trie. */
    method StateRoot() returns (root: B256)
      requires Valid()
      modifies owned`cachedReference
      ensures Valid() && root == Hash(View().accounts)
      ensures View() == old(View())
    {
      root := stateTrie.HashNode();
    }

    // The steps of an update.

    /** Starts a missing storage trie as empty. */
    method EnsureTrie(a: B256)
      requires Valid()
      modifies this
      ensures Valid() && fresh(owned - old(owned)) && a in storageTries
      ensures View() == State(old(View()).accounts, old(View()).storages[a := TrieOf(old(View()), a)])
    {
      if a !in storageTries {
        AddTrie(a);
      } else {
        assert View().storages == View().storages[a := View().storages[a]];
      }
    }

    method AddTrie(a: B256)
      requires Valid() && a !in storageTries
      modifies this
      ensures Valid() && fresh(owned - old(owned)) && a in storageTries
      ensures View() == State(old(View()).accounts, old(View()).storages[a := Null])
    {
      ghost var before := View();
      var trie := new MptNode();
      storageTries, owned := storageTries[a := trie], owned + trie.repr;
      TriesAdded(before.storages, a, View().storages);
    }

    method UpdateTrie(a: B256, storage: HashedStorage) returns (ok: bool)
      requires Valid() && a in storageTries && HashedTrie(storageTries[a].view)
      modifies this`owned, owned
      ensures Valid() && fresh(owned - old(owned))
      ensures OnlyStorageChanged(old(View()), a, View())
      ensures HashedTrie(storageTries[a].view)
      ensures ok <==> StorageResolvable(old(storageTries[a].view), storage)
      ensures ok ==>
        StorageApplied(old(storageTries[a].view), storage, storage.storage.Keys, storageTries[a].view)
    {
      var trie := storageTries[a];
      ok := UpdateStorage(trie, storage);
      owned := owned + trie.repr;
    }

    method ChangeStorage(a: B256, storage: HashedStorage) returns (ok: bool)
      requires Valid() && WellShaped(View())
      modifies this, owned
      ensures Valid() && fresh(owned - old(owned)) && a in storageTries
      ensures OnlyStorageChanged(old(View()), a, View())
      ensures HashedTrie(View().storages[a])
      ensures ok <==> StorageResolvable(TrieOf(old(View()), a), storage)
      ensures ok ==>
        StorageApplied(TrieOf(old(View()), a), storage, storage.storage.Keys, View().storages[a])
    {
      EnsureTrie(a);
      assert View().storages[a] == storageTries[a].view;
      ok := UpdateTrie(a, storage);
      assert View().storages[a] == storageTries[a].view;
    }

    method StorageRoot(a: B256) returns (root: B256)
      requires Valid() && a in storageTries
      modifies owned`cachedReference
      ensures Valid() && View() == old(View()) && root == Hash(View().storages[a])
    {
      root := storageTries[a].HashNode();
    }

    method PutAccount(a: B256, value: Option<Bytes>) returns (ok: bool)
      requires Valid() && HashedTrie(View().accounts)
      modifies this`owned, owned
      ensures Valid() && fresh(owned - old(owned))
      ensures View() == State(View().accounts, old(View()).storages) && HashedTrie(View().accounts)
      ensures ok <==> !Find(old(View()).accounts, ToNibs(a)).Blocked?
      ensures ok ==> OneKeyChanged(old(View()).accounts, ToNibs(a),
                                   if value.None? then Missing else Found(value.value), View().accounts)
    {
      ok := ApplyInPlace(stateTrie, a, value);
      owned := owned + stateTrie.repr;
    }

    /** The changes of one account; false is the panic at an unresolved node. */
    method UpdateAccount(a: B256, diff: HashedPostState) returns (ok: bool)
      requires Valid() && WellShaped(View()) && a in diff.accounts
      modifies this, owned
      ensures Valid() && fresh(owned - old(owned))
      ensures ok <==> AccountResolvable(old(View()), diff, a)
      ensures ok ==> Applied(old(View()), diff, {a}, View())
    {
      ghost var before := View();
      match diff.accounts[a]
      case Some(account) =>
        ok := ChangeStorage(a, StorageOf(diff, a));
        if !ok {
          return;
        }
        var root := StorageRoot(a);
        ok := PutAccount(a, Some(EncodeAccount(account, root)));
        if ok {
          ChangedAccountApplied(before, diff, a, View());
        }
      case None =>
        ok := PutAccount(a, None);
        if ok {
          RemovedAccountApplied(before, diff, a, View());
        }
    }

    /**
     * Applies the changes, account by account in an arbitrary order. It goes through exactly when
     * no changed key meets an unresolved node; false stands for the panic of the source.
     */
    method Update(diff: HashedPostState) returns (ok: bool)
      requires Valid() && WellShaped(View())
      modifies this, owned
      ensures Valid() && fresh(owned - old(owned))
      ensures ok <==> Resolvable(old(View()), diff)
      ensures ok ==> Applied(old(View()), diff, diff.accounts.Keys, View())
      ensures ok && InRange(diff) ==> Taken(old(View()), diff, diff.accounts.Keys, View())
    {
      ghost var before := View();
      ghost var done: set<B256> := {};
      var remaining := diff.accounts.Keys;
      NothingApplied(before, diff);
      while remaining != {}
        invariant Valid() && fresh(owned - old(owned))
        invariant done + remaining == diff.accounts.Keys && done !! remaining
        invariant Applied(before, diff, done, View())
        invariant forall a :: a in done ==> AccountResolvable(before, diff, a)
        decreases remaining
      {
        var a :| a in remaining;
        ghost var current := View();
        StillResolvable(before, diff, done, current, a);
        ok := UpdateAccount(a, diff);
        if !ok {
          return;
        }
        ApplyOneMore(before, diff, done, current, a, View());
        remaining, done := remaining - {a}, done + {a};
      }
      if InRange(diff) {
        AppliedTaken(before, diff, View());
      }
      ok := true;
    }

    // Collecting what is touched, on a state that the collected deletions change.

    method TouchStateTrie(a: B256, drop: bool, refs: set<Reference>, ghost start: Node, ghost visits: seq<Visit>)
      returns (ok: bool, refs': set<Reference>)
      requires Valid() && HashedTrie(View().accounts) && Track(start, visits, View().accounts, refs)
      modifies owned
      ensures Valid() && HashedTrie(View().accounts)
      ensures View() == State(View().accounts, old(View()).storages)
      ensures ok <==> !drop || !Find(start, ToNibs(a)).Blocked?
      ensures ok ==> Track(start, visits + [VisitOf(a, drop)], View().accounts, refs')
    {
      ok, refs' := TouchTracked(stateTrie, a, drop, refs, start, visits);
    }

    method TouchAccount(a: B256, drop: bool, marks: Marks, ghost start: State, ghost visits: StateVisits)
      returns (ok: bool, marks': Marks, ghost visits': StateVisits)
      requires Valid() && WellShaped(View()) && Tracking(start, visits, View(), marks)
      modifies owned
      ensures Valid() && WellShaped(View())
      ensures ok <==> !drop || !Find(start.accounts, ToNibs(a)).Blocked?
      ensures ok ==> Tracking(start, visits', View(), marks') && Continues(visits, visits')
      ensures visits' == visits.(accounts := visits.accounts + [VisitOf(a, drop)])
    {
      ghost var before := View();
      var refs;
      ok, refs := TouchStateTrie(a, drop, marks.accounts, start.accounts, visits.accounts);
      marks' := marks.(accounts := refs);
      visits' := visits.(accounts := visits.accounts + [VisitOf(a, drop)]);
      if ok {
        TrackingAccount(start, visits, before, marks, VisitOf(a, drop), View(), refs);
      }
    }

    /** The changed slots of an account that has a storage trie. */
    method TouchStorage(
        a: B256, storage: map<B256, nat>, marks: Marks, ghost start: State, ghost visits: StateVisits)
      returns (ok: bool, marks': Marks, ghost visits': StateVisits)
      requires Valid() && WellShaped(View()) && a in storageTries && Tracking(start, visits, View(), marks)
      modifies owned
      ensures Valid() && WellShaped(View())
      ensures ok <==> StorageDropsResolvable(start.storages[a], storage)
      ensures ok ==> Tracking(start, visits', View(), marks') && Continues(visits, visits')
      ensures ok ==> a in visits'.storages && ReachesSlots(visits'.storages[a], storage)
      ensures ok ==> visits' == visits.(storages := visits.storages[a := visits'.storages[a]])
      ensures ok ==> forall visit :: visit in visits'.storages[a] ==>
        visit in VisitsOf(visits, a) || SlotChange(visit, storage)
    {
      ghost var before := View();
      TrackingOfStorage(start, visits, before, marks, a);
      var refs;
      ghost var more;
      ok, refs, more := TouchTrie(a, storage, MarksOf(marks, a), start.storages[a], VisitsOf(visits, a));
      marks' := marks.(storages := marks.storages[a := refs]);
      visits' := visits.(storages := visits.storages[a := more]);
      StorageKeepsShape(before, a, View());
      if ok {
        ContinuesOneStorage(visits, a, more);
        TrackingOneStorage(start, visits, before, marks, a, more, View(), refs);
      }
    }

    method TouchTrie(
        a: B256, storage: map<B256, nat>, refs: set<Reference>, ghost start: Node, ghost visits: seq<Visit>)
      returns (ok: bool, refs': set<Reference>, ghost visits': seq<Visit>)
      requires Valid() && a in storageTries && HashedTrie(storageTries[a].view)
      requires Track(start, visits, storageTries[a].view, refs)
      modifies owned
      ensures Valid()
      ensures OnlyStorageChanged(old(View()), a, View()) && HashedTrie(storageTries[a].view)
      ensures ok <==> StorageDropsResolvable(start, storage)
      ensures ok ==> Track(start, visits', storageTries[a].view, refs') && visits <= visits'
      ensures ok ==> ReachesSlots(visits', storage)
      ensures ok ==> forall visit :: visit in visits' ==> visit in visits || SlotChange(visit, storage)
    {
      var trie := storageTries[a];
      ok, refs', visits' := TouchSlots(trie, storage, refs, start, visits);
    }

    /** The touched slots of an account that has a storage trie. */
    method TouchListed(a: B256, keys: seq<B256>, marks: Marks, ghost start: State, ghost visits: StateVisits)
      returns (marks': Marks, ghost visits': StateVisits)
      requires Valid() && WellShaped(View()) && a in storageTries && Tracking(start, visits, View(), marks)
      modifies owned
      ensures Valid() && WellShaped(View())
      ensures Tracking(start, visits', View(), marks') && Continues(visits, visits')
      ensures keys != [] ==> a in visits'.storages && VisitsAll(visits'.storages[a], keys)
      ensures keys == [] ==> visits' == visits
      ensures keys != [] ==> visits' == visits.(storages := visits.storages[a := visits'.storages[a]])
      ensures keys != [] ==> forall visit :: visit in visits'.storages[a] ==>
        visit in VisitsOf(visits, a) || KeyLookup(visit, keys)
    {
      if keys == [] {
        return marks, visits;
      }
      ghost var before := View();
      TrackingOfStorage(start, visits, before, marks, a);
      var refs;
      ghost var more;
      refs, more := TouchTrieKeys(a, keys, MarksOf(marks, a), start.storages[a], VisitsOf(visits, a));
      marks' := marks.(storages := marks.storages[a := refs]);
      visits' := visits.(storages := visits.storages[a := more]);
      StorageKeepsShape(before, a, View());
      ContinuesOneStorage(visits, a, more);
      TrackingOneStorage(start, visits, before, marks, a, more, View(), refs);
    }

    method TouchTrieKeys(
        a: B256, keys: seq<B256>, refs: set<Reference>, ghost start: Node, ghost visits: seq<Visit>)
      returns (refs': set<Reference>, ghost visits': seq<Visit>)
      requires Valid() && a in storageTries && HashedTrie(storageTries[a].view)
      requires Track(start, visits, storageTries[a].view, refs)
      modifies owned
      ensures Valid()
      ensures OnlyStorageChanged(old(View()), a, View()) && HashedTrie(storageTries[a].view)
      ensures Track(start, visits', storageTries[a].view, refs') && visits <= visits'
      ensures VisitsAll(visits', keys)
      ensures forall visit :: visit in visits' ==> visit in visits || KeyLookup(visit, keys)
    {
      var trie := storageTries[a];
      refs', visits' := TouchKeys(trie, keys, refs, start, visits);
    }

    /** What one changed account touches. */
    method TouchChanged(
        a: B256, diff: HashedPostState, ghost touched: map<B256, seq<B256>>, marks: Marks,
        ghost start: State, ghost visits: StateVisits)
      returns (ok: bool, marks': Marks, ghost visits': StateVisits)
      requires Valid() && WellShaped(View()) && Tracking(start, visits, View(), marks) && a in diff.accounts
      requires Asked(visits, start, diff, touched)
      modifies owned
      ensures Valid() && WellShaped(View())
      ensures ok <==> AccountDropsResolvable(start, diff, a)
      ensures ok ==> Tracking(start, visits', View(), marks') && Continues(visits, visits')
      ensures ok ==> ReachesAccount(visits', start, diff, a) && Asked(visits', start, diff, touched)
    {
      assert start.storages.Keys == View().storages.Keys;
      if diff.accounts[a].None? {
        ok, marks', visits' := TouchAccount(a, true, marks, start, visits);
        LastVisit(visits.accounts, VisitOf(a, true));
        AskedAccount(visits, start, diff, touched, VisitOf(a, true));
      } else if a in storageTries {
        ok, marks', visits' := TouchChangedStorage(a, diff, touched, marks, start, visits);
      } else {
        ok, marks', visits' := true, marks, visits;
      }
    }

    method TouchChangedStorage(
        a: B256, diff: HashedPostState, ghost touched: map<B256, seq<B256>>, marks: Marks,
        ghost start: State, ghost visits: StateVisits)
      returns (ok: bool, marks': Marks, ghost visits': StateVisits)
      requires Valid() && WellShaped(View()) && Tracking(start, visits, View(), marks) && a in storageTries
      requires Asked(visits, start, diff, touched) && a in diff.accounts && diff.accounts[a].Some?
      modifies owned
      ensures Valid() && WellShaped(View())
      ensures ok <==> StorageDropsResolvable(start.storages[a], StorageOf(diff, a).storage)
      ensures ok ==> Tracking(start, visits', View(), marks') && Continues(visits, visits')
      ensures ok ==> Visits(visits'.accounts, ToNibs(a))
      ensures ok ==> a in visits'.storages && ReachesSlots(visits'.storages[a], StorageOf(diff, a).storage)
      ensures ok ==> Asked(visits', start, diff, touched)
    {
      ok, marks', visits' := TouchStorage(a, StorageOf(diff, a).storage, marks, start, visits);
      if ok {
        ghost var between := visits';
        AskedStorage(visits, start, diff, touched, a, between.storages[a]);
        LastVisit(between.accounts, VisitOf(a, false));
        AskedAccount(between, start, diff, touched, VisitOf(a, false));
        ok, marks', visits' := TouchAccount(a, false, marks', start, between);
        ContinuesTwice(visits, between, visits');
      }
    }

    /** What one account of the touched state touches. */
    method TouchRequested(
        a: B256, ghost diff: HashedPostState, touched: map<B256, seq<B256>>, marks: Marks,
        ghost start: State, ghost visits: StateVisits)
      returns (marks': Marks, ghost visits': StateVisits)
      requires Valid() && WellShaped(View()) && Tracking(start, visits, View(), marks)
      requires Asked(visits, start, diff, touched) && a in touched
      modifies owned
      ensures Valid() && WellShaped(View())
      ensures Tracking(start, visits', View(), marks') && Continues(visits, visits')
      ensures ReachesTouched(visits', start, a, touched[a]) && Asked(visits', start, diff, touched)
    {
      ghost var between := visits;
      marks' := marks;
      if a in storageTries {
        marks', between := TouchListed(a, touched[a], marks, start, visits);
        if touched[a] != [] {
          AskedStorage(visits, start, diff, touched, a, between.storages[a]);
        }
      }
      var ok;
      AskedAccount(between, start, diff, touched, VisitOf(a, false));
      LastVisit(between.accounts, VisitOf(a, false));
      ok, marks', visits' := TouchAccount(a, false, marks', start, between);
      ContinuesTwice(visits, between, visits');
    }

    /** The references that the changes and the touched state reach; `None` is the panic of a deletion. */
    method GetTouchedNodes(diff: HashedPostState, touched: map<B256, seq<B256>>)
      returns (marks: Option<Marks>, ghost visits: StateVisits)
      requires Valid() && WellShaped(View())
      modifies owned
      ensures Valid()
      ensures marks.Some? <==> DropsResolvable(old(View()), diff)
      ensures marks.Some? ==> Collected(visits, old(View()), marks.value)
      ensures marks.Some? ==> Reaches(visits, old(View()), diff, touched) && Asked(visits, old(View()), diff, touched)
    {
      ghost var start := View();
      var collected := Marks({}, map[]);
      visits := StateVisits([], map[]);
      var remaining := diff.accounts.Keys;
      while remaining != {}
        invariant remaining <= diff.accounts.Keys
        invariant Valid() && WellShaped(View())
        invariant Tracking(start, visits, View(), collected) && Asked(visits, start, diff, touched)
        invariant forall a :: a in diff.accounts.Keys - remaining ==>
          ReachesAccount(visits, start, diff, a) && AccountDropsResolvable(start, diff, a)
        decreases remaining
      {
        var a :| a in remaining;
        ghost var before := visits;
        var ok;
        ok, collected, visits := TouchChanged(a, diff, touched, collected, start, before);
        if !ok {
          return None, visits;
        }
        forall b | b in diff.accounts.Keys - remaining ensures ReachesAccount(visits, start, diff, b) {
          ReachesAccountGrows(before, visits, start, diff, b);
        }
        remaining := remaining - {a};
      }
      collected, visits := TouchAllRequested(diff, touched, collected, start, visits);
      TrackingCollected(start, visits, View(), collected);
      marks := Some(collected);
    }

    method TouchAllRequested(
        ghost diff: HashedPostState, touched: map<B256, seq<B256>>, marks: Marks,
        ghost start: State, ghost visits: StateVisits)
      returns (marks': Marks, ghost visits': StateVisits)
      requires Valid() && WellShaped(View()) && Tracking(start, visits, View(), marks)
      requires Asked(visits, start, diff, touched)
      requires forall a :: a in diff.accounts ==> ReachesAccount(visits, start, diff, a)
      modifies owned
      ensures Valid() && WellShaped(View())
      ensures Tracking(start, visits', View(), marks')
      ensures Reaches(visits', start, diff, touched) && Asked(visits', start, diff, touched)
    {
      var remaining := touched.Keys;
      marks', visits' := marks, visits;
      while remaining != {}
        invariant remaining <= touched.Keys
        invariant Valid() && WellShaped(View())
        invariant Tracking(start, visits', View(), marks') && Asked(visits', start, diff, touched)
        invariant forall a :: a in diff.accounts ==> ReachesAccount(visits', start, diff, a)
        invariant forall a :: a in touched.Keys - remaining ==> ReachesTouched(visits', start, a, touched[a])
        decreases remaining
      {
        var a :| a in remaining;
        ghost var before := visits';
        marks', visits' := TouchRequested(a, diff, touched, marks', start, before);
        forall b | b in diff.accounts ensures ReachesAccount(visits', start, diff, b) {
          ReachesAccountGrows(before, visits', start, diff, b);
        }
        forall b | b in touched.Keys - remaining ensures ReachesTouched(visits', start, b, touched[b]) {
          ReachesTouchedGrows(before, visits', start, b, touched[b]);
        }
        remaining := remaining - {a};
      }
    }

    // Pruning.

    /** A copy that shares no node with this state. */
    method CloneState() returns (copy: EthereumState)
      requires Valid()
      ensures fresh(copy) && copy.Valid() && fresh(copy.owned) && copy.View() == View()
    {
      var accounts := stateTrie.CloneNode();
      var tries;
      ghost var nodes;
      tries, nodes := CloneTries();
      copy := new EthereumState.OfTries(accounts, tries, nodes);
      SameStates(copy.View(), View());
    }

    method CloneTries() returns (tries: map<B256, MptNode>, ghost nodes: set<MptNode>)
      requires Valid()
      ensures fresh(nodes) && tries.Keys == storageTries.Keys
      ensures forall a :: a in tries ==>
        && tries[a] in nodes && tries[a].repr <= nodes && tries[a].Valid()
        && tries[a].view == storageTries[a].view
      ensures forall a, b :: a in tries && b in tries && a != b ==> tries[a].repr !! tries[b].repr
    {
      tries, nodes := map[], {};
      var remaining := storageTries.Keys;
      while remaining != {}
        invariant remaining <= storageTries.Keys && tries.Keys == storageTries.Keys - remaining
        invariant fresh(nodes)
        invariant forall a :: a in tries ==>
          && tries[a] in nodes && tries[a].repr <= nodes && tries[a].Valid()
          && tries[a].view == storageTries[a].view
        invariant forall a, b :: a in tries && b in tries && a != b ==> tries[a].repr !! tries[b].repr
        decreases remaining
      {
        var a :| a in remaining;
        var trie := storageTries[a].CloneNode();
        tries, nodes := tries[a := trie], nodes + trie.repr;
        remaining := remaining - {a};
      }
    }

    /** Prunes the state trie; false is the failed assertion that the root stays the same. */
    method PruneAccounts(refs: set<Reference>) returns (ok: bool)
      requires Valid()
      modifies owned
      ensures Valid() && View() == State(Prune(old(View()).accounts, refs), old(View()).storages)
      ensures ok <==> Hash(View().accounts) == Hash(old(View()).accounts)
    {
      ok := PruneInPlace(stateTrie, refs);
    }

    /** Prunes one storage trie, with the same assertion. */
    method PruneStorage(a: B256, refs: set<Reference>) returns (ok: bool)
      requires Valid() && a in storageTries
      modifies owned
      ensures Valid() && OnlyStorageChanged(old(View()), a, View())
      ensures View().storages[a] == Prune(old(View()).storages[a], refs)
      ensures ok <==> Hash(View().storages[a]) == Hash(old(View()).storages[a])
    {
      ok := PruneInPlace(storageTries[a], refs);
    }

    method PruneStorages(refs: map<B256, set<Reference>>, ghost start: State) returns (ok: bool)
      requires Valid() && refs.Keys <= View().storages.Keys && start.storages == View().storages
      modifies owned
      ensures Valid() && View().accounts == old(View()).accounts
      ensures ok ==> StoragesPruned(start, refs, refs.Keys, View())
      ensures CleanState(start) && WellShaped(start) ==> ok
    {
      var remaining := refs.Keys;
      while remaining != {}
        invariant remaining <= refs.Keys && Valid() && View().accounts == old(View()).accounts
        invariant StoragesPruned(start, refs, refs.Keys - remaining, View())
        decreases remaining
      {
        var a :| a in remaining;
        ghost var before := View();
        ok := PruneStorage(a, refs[a]);
        StoragesPrunedOneMore(start, refs, remaining, before, a, View());
        if !ok {
          return;
        }
        remaining := remaining - {a};
      }
      ok := true;
    }

    /**
     * Prunes the state to what the changes and the touched state need. False stands for a panic:
     * a deletion that met an unresolved node, or a root that changed, which does not happen on a
     * state that was not pruned before.
     */
    method PruneTo(diff: HashedPostState, touched: map<B256, seq<B256>>)
      returns (ok: bool, ghost visits: StateVisits, ghost marks: Marks)
      requires Valid() && WellShaped(View())
      modifies owned
      ensures Valid()
      ensures ok ==> Collected(visits, old(View()), marks) && Reaches(visits, old(View()), diff, touched)
      ensures ok ==> Asked(visits, old(View()), diff, touched)
      ensures ok ==> View() == PruneState(old(View()), marks)
      ensures CleanState(old(View())) ==> (ok <==> DropsResolvable(old(View()), diff))
    {
      var collected;
      collected, visits := CollectTouched(diff, touched);
      if collected.None? {
        return false, visits, Marks({}, map[]);
      }
      marks := collected.value;
      ok := PruneByMarks(collected.value);
    }

    method CollectTouched(diff: HashedPostState, touched: map<B256, seq<B256>>)
      returns (marks: Option<Marks>, ghost visits: StateVisits)
      requires Valid() && WellShaped(View())
      ensures marks.Some? <==> DropsResolvable(View(), diff)
      ensures marks.Some? ==> Collected(visits, View(), marks.value) && Reaches(visits, View(), diff, touched)
      ensures marks.Some? ==> Asked(visits, View(), diff, touched)
    {
      var copy := CloneState();
      ghost var start := View();
      marks, visits := copy.GetTouchedNodes(diff, touched);
      assert View() == start;
    }

    method PruneByMarks(marks: Marks) returns (ok: bool)
      requires Valid() && marks.storages.Keys <= View().storages.Keys
      modifies owned
      ensures Valid()
      ensures ok ==> View() == PruneState(old(View()), marks)
      ensures CleanState(old(View())) && WellShaped(old(View())) ==> ok
    {
      ghost var start := View();
      ok := PruneAccounts(marks.accounts);
      PrunedAccountsRoot(start, marks);
      if ok {
        ok := PruneStorages(marks.storages, start);
        if ok {
          PrunedEverywhere(start, marks, View());
        }
      }
    }
  }

  lemma ChangedAccountApplied(before: State, diff: HashedPostState, a: B256, after: State)
    requires WellShaped(before) && a in diff.accounts && diff.accounts[a].Some? && a in after.storages
    requires HashedTrie(after.accounts) && HashedTrie(after.storages[a])
    requires OnlyStorageChanged(before, a, State(before.accounts, after.storages))
    requires StorageApplied(TrieOf(before, a), StorageOf(diff, a), StorageOf(diff, a).storage.Keys, after.storages[a])
    requires OneKeyChanged(before.accounts, ToNibs(a),
      Found(EncodeAccount(diff.accounts[a].value, Hash(after.storages[a]))), after.accounts)
    ensures Applied(before, diff, {a}, after)
  {
    forall path | !IsKeyOf({a}, path) ensures Find(after.accounts, path) == Find(before.accounts, path) {
      assert a in {a};
    }
  }

  lemma RemovedAccountApplied(before: State, diff: HashedPostState, a: B256, after: State)
    requires WellShaped(before) && a in diff.accounts && diff.accounts[a].None?
    requires HashedTrie(after.accounts) && after.storages == before.storages
    requires OneKeyChanged(before.accounts, ToNibs(a), Missing, after.accounts)
    ensures Applied(before, diff, {a}, after)
  {
    forall path | !IsKeyOf({a}, path) ensures Find(after.accounts, path) == Find(before.accounts, path) {
      assert a in {a};
    }
  }
}
