/** Collecting the touched references of a state, on a copy that the collected deletions change. */
module StateTouching {
  import opened Primitives
  import opened Nibbles
  import opened Trie
  import opened TrieMap
  import opened TrieForm
  import opened TrieHistory
  import opened NodeCodec
  import opened Pruning
  import opened MptNodes
  import opened StateMap
  import opened StatePruning

  /** The trie after a series of visits. */
  function AfterVisits(n: Node, visits: seq<Visit>): Option<Node>
    decreases |visits|
  {
    if visits == [] then Some(n)
    else
      var first := Visited(n, visits[0]);
      if first.Failed? then None else AfterVisits(first.node, visits[1..])
  }

  /** `current` and `refs` are what a series of visits made of the trie, and what it collected. */
  ghost predicate Track(start: Node, visits: seq<Visit>, current: Node, refs: set<Reference>) {
    Collect(start, visits) == Some(refs) && AfterVisits(start, visits) == Some(current)
  }

  lemma {:induction false} TrackOneMore(
      start: Node, visits: seq<Visit>, current: Node, refs: set<Reference>, visit: Visit)
    requires Track(start, visits, current, refs) && Visited(current, visit).Done?
    ensures Track(start, visits + [visit], Visited(current, visit).node, refs + VisitRefs(current, visit))
    decreases |visits|
  {
    if visits == [] {
      assert [] + [visit] == [visit];
      assert [visit][1..] == [];
      assert VisitRefs(current, visit) + {} == refs + VisitRefs(current, visit);
    } else {
      var first := Visited(start, visits[0]).node;
      var later := Collect(first, visits[1..]).value;
      assert (visits + [visit])[1..] == visits[1..] + [visit];
      TrackOneMore(first, visits[1..], current, later, visit);
      assert refs + VisitRefs(current, visit)
          == VisitRefs(start, visits[0]) + (later + VisitRefs(current, visit));
    }
  }

  /** The visit at `i` reports the reference, on the trie that the visits before it have left. */
  ghost predicate Reports(n: Node, visits: seq<Visit>, i: nat, r: Reference) {
    && i < |visits| && AfterVisits(n, visits[..i]).Some?
    && r in VisitRefs(AfterVisits(n, visits[..i]).value, visits[i])
  }

  /** What a series collects is what its visits report. */
  lemma {:induction false} CollectedIff(n: Node, visits: seq<Visit>, r: Reference)
    requires Collect(n, visits).Some?
    ensures r in Collect(n, visits).value <==> exists i: nat :: Reports(n, visits, i, r)
    decreases |visits|
  {
    if visits != [] {
      var after, rest := Visited(n, visits[0]).node, visits[1..];
      CollectedIff(after, rest, r);
      assert visits[..0] == [];
      assert Reports(n, visits, 0, r) <==> r in VisitRefs(n, visits[0]);
      forall i: nat, k: nat | k == i + 1 && k < |visits|
        ensures Reports(n, visits, k, r) <==> Reports(after, rest, i, r)
      {
        assert visits[..k][1..] == rest[..i] && visits[k] == rest[i];
      }
      if k: nat :| Reports(n, visits, k, r) && k > 0 {
        var i := k - 1;
        assert Reports(after, rest, i, r);
      }
      if i: nat :| Reports(after, rest, i, r) {
        var k := i + 1;
        assert Reports(n, visits, k, r);
      }
    }
  }

  /** Deletions do not change which keys are blocked. */
  lemma {:induction false} TrackBlocked(start: Node, visits: seq<Visit>, current: Node, refs: set<Reference>, key: Path)
    requires Track(start, visits, current, refs)
    ensures Find(current, key).Blocked? <==> Find(start, key).Blocked?
    decreases |visits|
  {
    if visits != [] {
      var first := Visited(start, visits[0]).node;
      TrackBlocked(first, visits[1..], current, Collect(first, visits[1..]).value, key);
      if visits[0].Drop? {
        DeleteRefines(start, visits[0].key);
        DeleteFindAt(start, visits[0].key, key);
      }
    }
  }

  /** A longer series reaches at least as much. */
  lemma VisitsGrow(visits: seq<Visit>, more: seq<Visit>, key: Path)
    requires visits <= more
    ensures Visits(visits, key) ==> Visits(more, key)
    ensures Drops(visits, key) ==> Drops(more, key)
  {
    if Visits(visits, key) {
      var i :| 0 <= i < |visits| && visits[i].key == key;
      assert more[i].key == key;
    }
    if Drops(visits, key) {
      var i :| 0 <= i < |visits| && visits[i] == Drop(key);
      assert more[i] == Drop(key);
    }
  }

  lemma LastVisit(visits: seq<Visit>, visit: Visit)
    ensures Visits(visits + [visit], visit.key)
    ensures visit.Drop? ==> Drops(visits + [visit], visit.key)
  {
    assert (visits + [visit])[|visits|] == visit;
  }

  function VisitOf(key: B256, drop: bool): Visit {
    if drop then Drop(ToNibs(key)) else Look(ToNibs(key))
  }

  /** One lookup or deletion, in place; false is the panic at an unresolved node. */
  method TouchInPlace(trie: MptNode, key: B256, drop: bool) returns (ok: bool, refs: set<Reference>)
    requires trie.Valid() && HashedTrie(trie.view)
    modifies trie.repr
    ensures trie.Valid() && trie.repr <= old(trie.repr) && HashedTrie(trie.view)
    ensures ok <==> Visited(old(trie.view), VisitOf(key, drop)).Done?
    ensures ok <==> !drop || !Find(old(trie.view), ToNibs(key)).Blocked?
    ensures ok ==> trie.view == Visited(old(trie.view), VisitOf(key, drop)).node
    ensures ok ==> refs == VisitRefs(old(trie.view), VisitOf(key, drop))
  {
    var nibs := ToNibsLoop(key);
    if drop {
      ghost var before := trie.view;
      UniformUpdates(before, 64, Remove(nibs));
      DeleteCanonical(before, nibs);
      var result, touched := trie.DeleteInternalWithTouched(nibs);
      ok, refs := result.Success?, Listed(touched);
      if ok {
        DeleteRefines(before, nibs);
      }
    } else {
      var value, touched := trie.GetInternalWithTouched(nibs);
      ok, refs := true, Listed(touched);
    }
  }

  /** One more visit in a tracked series. */
  method TouchTracked(
      trie: MptNode, key: B256, drop: bool, refs: set<Reference>, ghost start: Node, ghost visits: seq<Visit>)
    returns (ok: bool, refs': set<Reference>)
    requires trie.Valid() && HashedTrie(trie.view) && Track(start, visits, trie.view, refs)
    modifies trie.repr
    ensures trie.Valid() && trie.repr <= old(trie.repr) && HashedTrie(trie.view)
    ensures ok <==> !drop || !Find(start, ToNibs(key)).Blocked?
    ensures ok ==> Track(start, visits + [VisitOf(key, drop)], trie.view, refs')
  {
    TrackBlocked(start, visits, trie.view, refs, ToNibs(key));
    ghost var current := trie.view;
    var touched;
    ok, touched := TouchInPlace(trie, key, drop);
    refs' := refs + touched;
    if ok {
      TrackOneMore(start, visits, current, refs, VisitOf(key, drop));
    }
  }

  /** The changed slots of an account: zeros are deleted, the others looked up, in any order. */
  method TouchSlots(
      trie: MptNode, storage: map<B256, nat>, refs: set<Reference>, ghost start: Node, ghost visits: seq<Visit>)
    returns (ok: bool, refs': set<Reference>, ghost visits': seq<Visit>)
    requires trie.Valid() && HashedTrie(trie.view) && Track(start, visits, trie.view, refs)
    modifies trie.repr
    ensures trie.Valid() && trie.repr <= old(trie.repr) && HashedTrie(trie.view)
    ensures ok <==> StorageDropsResolvable(start, storage)
    ensures ok ==> Track(start, visits', trie.view, refs') && visits <= visits'
    ensures ok ==> ReachesSlots(visits', storage)
    ensures ok ==> forall visit :: visit in visits' ==> visit in visits || SlotChange(visit, storage)
  {
    var remaining := storage.Keys;
    refs', visits' := refs, visits;
    while remaining != {}
      invariant remaining <= storage.Keys
      invariant trie.Valid() && trie.repr <= old(trie.repr) && HashedTrie(trie.view)
      invariant Track(start, visits', trie.view, refs') && visits <= visits'
      invariant forall visit :: visit in visits' ==> visit in visits || SlotChange(visit, storage)
      invariant forall slot :: slot in storage.Keys - remaining ==>
        ReachesSlot(visits', slot, storage[slot]) && (storage[slot] == 0 ==> !Find(start, ToNibs(slot)).Blocked?)
      decreases remaining
    {
      var slot :| slot in remaining;
      ok, refs' := TouchTracked(trie, slot, storage[slot] == 0, refs', start, visits');
      if !ok {
        return;
      }
      ghost var visit := VisitOf(slot, storage[slot] == 0);
      assert SlotChange(visit, storage);
      SlotsReachedOneMore(visits', visit, storage, storage.Keys - remaining);
      LastVisit(visits', visit);
      visits' := visits' + [visit];
      remaining := remaining - {slot};
    }
    ok := true;
  }

  lemma SlotsReachedOneMore(visits: seq<Visit>, visit: Visit, storage: map<B256, nat>, slots: set<B256>)
    requires slots <= storage.Keys
    requires forall slot :: slot in slots ==> ReachesSlot(visits, slot, storage[slot])
    ensures forall slot :: slot in slots ==> ReachesSlot(visits + [visit], slot, storage[slot])
  {
    forall slot | slot in slots ensures ReachesSlot(visits + [visit], slot, storage[slot]) {
      VisitsGrow(visits, visits + [visit], ToNibs(slot));
    }
  }

  /** The touched slots of an account are looked up. */
  method TouchKeys(
      trie: MptNode, keys: seq<B256>, refs: set<Reference>, ghost start: Node, ghost visits: seq<Visit>)
    returns (refs': set<Reference>, ghost visits': seq<Visit>)
    requires trie.Valid() && HashedTrie(trie.view) && Track(start, visits, trie.view, refs)
    modifies trie.repr
    ensures trie.Valid() && trie.repr <= old(trie.repr) && HashedTrie(trie.view)
    ensures Track(start, visits', trie.view, refs') && visits <= visits'
    ensures VisitsAll(visits', keys)
    ensures forall visit :: visit in visits' ==> visit in visits || KeyLookup(visit, keys)
  {
    refs', visits' := refs, visits;
    for i := 0 to |keys|
      invariant trie.Valid() && trie.repr <= old(trie.repr) && HashedTrie(trie.view)
      invariant Track(start, visits', trie.view, refs') && visits <= visits'
      invariant forall j :: 0 <= j < i ==> Visits(visits', ToNibs(keys[j]))
      invariant forall visit :: visit in visits' ==> visit in visits || KeyLookup(visit, keys)
    {
      var ok;
      ok, refs' := TouchTracked(trie, keys[i], false, refs', start, visits');
      ghost var visit := VisitOf(keys[i], false);
      assert KeyLookup(visit, keys);
      LastVisit(visits', visit);
      forall j | 0 <= j < i ensures Visits(visits' + [visit], ToNibs(keys[j])) {
        VisitsGrow(visits', visits' + [visit], ToNibs(keys[j]));
      }
      visits' := visits' + [visit];
    }
  }

  // The whole state.

  /** What the visits so far made of the state, and what they collected. */
  ghost predicate Tracking(start: State, visits: StateVisits, current: State, marks: Marks) {
    && Track(start.accounts, visits.accounts, current.accounts, marks.accounts)
    && marks.storages.Keys == visits.storages.Keys <= start.storages.Keys == current.storages.Keys
    && forall a :: a in start.storages ==> TrackingStorage(start, visits, current, marks, a)
  }

  ghost predicate TrackingStorage(start: State, visits: StateVisits, current: State, marks: Marks, a: B256)
    requires a in start.storages && a in current.storages && marks.storages.Keys == visits.storages.Keys
  {
    if a in visits.storages
    then Track(start.storages[a], visits.storages[a], current.storages[a], marks.storages[a])
    else current.storages[a] == start.storages[a]
  }

  /** `more` goes on where `visits` stops, everywhere. */
  ghost predicate Continues(visits: StateVisits, more: StateVisits) {
    && visits.accounts <= more.accounts
    && visits.storages.Keys <= more.storages.Keys
    && forall a :: a in visits.storages ==> visits.storages[a] <= more.storages[a]
  }

  lemma ReachesAccountGrows(
      visits: StateVisits, more: StateVisits, state: State, diff: HashedPostState, a: B256)
    requires Continues(visits, more) && a in diff.accounts && ReachesAccount(visits, state, diff, a)
    ensures ReachesAccount(more, state, diff, a)
  {
    VisitsGrow(visits.accounts, more.accounts, ToNibs(a));
    if diff.accounts[a].Some? && a in state.storages {
      var storage := StorageOf(diff, a).storage;
      forall slot | slot in storage ensures ReachesSlot(more.storages[a], slot, storage[slot]) {
        VisitsGrow(visits.storages[a], more.storages[a], ToNibs(slot));
      }
    }
  }

  lemma ReachesTouchedGrows(
      visits: StateVisits, more: StateVisits, state: State, a: B256, keys: seq<B256>)
    requires Continues(visits, more) && ReachesTouched(visits, state, a, keys)
    ensures ReachesTouched(more, state, a, keys)
  {
    VisitsGrow(visits.accounts, more.accounts, ToNibs(a));
    if a in state.storages && keys != [] {
      forall key | key in keys ensures Visits(more.storages[a], ToNibs(key)) {
        VisitsGrow(visits.storages[a], more.storages[a], ToNibs(key));
      }
    }
  }

  /** The deletions that are collected meet no unresolved node. */
  ghost predicate DropsResolvable(state: State, diff: HashedPostState) {
    forall a :: a in diff.accounts ==> AccountDropsResolvable(state, diff, a)
  }

  ghost predicate AccountDropsResolvable(state: State, diff: HashedPostState, a: B256)
    requires a in diff.accounts
  {
    if diff.accounts[a].None? then !Find(state.accounts, ToNibs(a)).Blocked?
    else a in state.storages ==> StorageDropsResolvable(state.storages[a], StorageOf(diff, a).storage)
  }

  ghost predicate StorageDropsResolvable(n: Node, storage: map<B256, nat>) {
    forall slot :: slot in storage && storage[slot] == 0 ==> !Find(n, ToNibs(slot)).Blocked?
  }

  lemma TrackingCollected(start: State, visits: StateVisits, current: State, marks: Marks)
    requires Tracking(start, visits, current, marks)
    ensures Collected(visits, start, marks)
  {
    assert forall a :: a in visits.storages ==> TrackingStorage(start, visits, current, marks, a);
  }

  lemma TrackingAccount(
      start: State, visits: StateVisits, before: State, marks: Marks, visit: Visit, after: State,
      refs: set<Reference>)
    requires Tracking(start, visits, before, marks) && after.storages == before.storages
    requires Track(start.accounts, visits.accounts + [visit], after.accounts, refs)
    ensures Tracking(start, visits.(accounts := visits.accounts + [visit]), after, marks.(accounts := refs))
    ensures Continues(visits, visits.(accounts := visits.accounts + [visit]))
  {
    var visits', marks' := visits.(accounts := visits.accounts + [visit]), marks.(accounts := refs);
    forall a | a in start.storages ensures TrackingStorage(start, visits', after, marks', a) {
      assert TrackingStorage(start, visits, before, marks, a);
    }
  }

  /** The visits of one storage trie so far; a trie that was not visited has none. */
  ghost function VisitsOf(visits: StateVisits, a: B256): seq<Visit> {
    if a in visits.storages then visits.storages[a] else []
  }

  function MarksOf(marks: Marks, a: B256): set<Reference> {
    if a in marks.storages then marks.storages[a] else {}
  }

  lemma TrackingOfStorage(start: State, visits: StateVisits, current: State, marks: Marks, a: B256)
    requires Tracking(start, visits, current, marks) && a in start.storages
    ensures Track(start.storages[a], VisitsOf(visits, a), current.storages[a], MarksOf(marks, a))
  {
    assert TrackingStorage(start, visits, current, marks, a);
  }

  lemma TrackingOneStorage(
      start: State, visits: StateVisits, before: State, marks: Marks, a: B256, more: seq<Visit>, after: State,
      refs: set<Reference>)
    requires Tracking(start, visits, before, marks) && a in start.storages
    requires OnlyStorageChanged(before, a, after) && VisitsOf(visits, a) <= more
    requires Track(start.storages[a], more, after.storages[a], refs)
    ensures Tracking(start, visits.(storages := visits.storages[a := more]), after,
                     marks.(storages := marks.storages[a := refs]))
  {
    var visits' := visits.(storages := visits.storages[a := more]);
    var marks' := marks.(storages := marks.storages[a := refs]);
    assert after.storages.Keys == before.storages.Keys;
    forall b | b in start.storages ensures TrackingStorage(start, visits', after, marks', b) {
      assert TrackingStorage(start, visits, before, marks, b);
    }
  }

  lemma ContinuesOneStorage(visits: StateVisits, a: B256, more: seq<Visit>)
    requires VisitsOf(visits, a) <= more
    ensures Continues(visits, visits.(storages := visits.storages[a := more]))
  {}

  // Nothing is visited that was not asked for.

  lemma AskedAccount(
      visits: StateVisits, state: State, diff: HashedPostState, touched: map<B256, seq<B256>>, visit: Visit)
    requires Asked(visits, state, diff, touched) && AccountAsked(visit, state, diff, touched)
    ensures Asked(visits.(accounts := visits.accounts + [visit]), state, diff, touched)
  {}

  lemma AskedStorage(
      visits: StateVisits, state: State, diff: HashedPostState, touched: map<B256, seq<B256>>,
      a: B256, more: seq<Visit>)
    requires Asked(visits, state, diff, touched)
    requires forall visit :: visit in more ==> visit in VisitsOf(visits, a) || SlotAsked(visit, a, diff, touched)
    ensures Asked(visits.(storages := visits.storages[a := more]), state, diff, touched)
  {
    forall visit | visit in more ensures SlotAsked(visit, a, diff, touched) {
      assert a in visits.storages ==> SlotsAsked(visits.storages[a], a, diff, touched);
    }
  }

  lemma ContinuesTwice(first: StateVisits, second: StateVisits, third: StateVisits)
    requires Continues(first, second) && Continues(second, third)
    ensures Continues(first, third)
  {}

  ghost predicate OnlyStorageChanged(before: State, a: B256, after: State) {
    && after.accounts == before.accounts && a in after.storages
    && forall b :: b != a ==>
         && (b in after.storages <==> b in before.storages)
         && (b in after.storages ==> after.storages[b] == before.storages[b])
  }

  lemma StorageKeepsShape(before: State, a: B256, after: State)
    requires WellShaped(before) && OnlyStorageChanged(before, a, after)
    requires a in after.storages && HashedTrie(after.storages[a])
    ensures WellShaped(after)
  {}
}
