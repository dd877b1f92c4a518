/**
 * Whole runs of operations on a trie in place. The caches hide what pruning has cut away, so the
 * hash at the end is compared with that of the reloaded trie, which has no caches.
 */
module MptRuns {
  import opened Primitives
  import opened Nibbles
  import opened Trie
  import opened TrieMap
  import opened TrieForm
  import opened NodeCodec
  import opened Pruning
  import opened ShortNodes
  import opened StaleHashes
  import opened MptNodes

  datatype Step =
    | InsertStep(key: Bytes, value: Bytes)
    | DeleteStep(key: Bytes)
    | ClearStep
    | HashStep
    | PruneStep(marks: set<Reference>)

  /** The trie after an update; one that failed has changed nothing. */
  function Updated(n: Node, update: Update): Node {
    if update.Done? then update.node else n
  }

  function Stepped(n: Node, step: Step): Node {
    match step
    case InsertStep(key, value) => Updated(n, Insert(n, ToNibs(key), value))
    case DeleteStep(key) => Updated(n, Delete(n, ToNibs(key)))
    case ClearStep => Null
    case HashStep => n
    case PruneStep(marks) => Prune(n, marks)
  }

  function AfterSteps(n: Node, steps: seq<Step>): Node {
    if steps == [] then n else Stepped(AfterSteps(n, steps[..|steps| - 1]), steps[|steps| - 1])
  }

  /** Every step keeps the canonical form. */
  lemma SteppedCanonical(n: Node, step: Step)
    requires Canonical(n)
    ensures Canonical(Stepped(n, step))
  {
    match step
    case InsertStep(key, value) =>
      if Insert(n, ToNibs(key), value).Done? {
        InsertCanonical(n, ToNibs(key), value);
      }
    case DeleteStep(key) => DeleteCanonical(n, ToNibs(key));
    case PruneStep(marks) => CutCanonical(n, KeepMarked(marks));
    case _ =>
  }

  // The hash without caches.

  /** The step prunes the trie, as it stands then, and cuts a short node away. */
  predicate CutsShortAt(n: Node, steps: seq<Step>, i: nat)
    requires i < |steps|
  {
    steps[i].PruneStep? && CutsShort(AfterSteps(n, steps[..i]), KeepMarked(steps[i].marks))
  }

  predicate CutsShortSometime(n: Node, steps: seq<Step>) {
    exists i :: 0 <= i < |steps| && CutsShortAt(n, steps, i)
  }

  lemma SteppedClean(n: Node, step: Step)
    requires Canonical(n) && Clean(n)
    requires step.PruneStep? ==> !CutsShort(n, KeepMarked(step.marks))
    ensures Clean(Stepped(n, step))
  {
    match step
    case InsertStep(key, value) =>
      if Insert(n, ToNibs(key), value).Done? {
        InsertKeepsClean(n, ToNibs(key), value);
      }
    case DeleteStep(key) =>
      if Delete(n, ToNibs(key)).Done? {
        DeleteKeepsClean(n, ToNibs(key));
      }
    case PruneStep(marks) => CutClean(n, KeepMarked(marks));
    case _ =>
  }

  /** A run that never cuts a short node away leaves no stale reference. */
  lemma {:induction false} AfterStepsClean(n: Node, steps: seq<Step>)
    requires Canonical(n) && Clean(n) && !CutsShortSometime(n, steps)
    ensures Canonical(AfterSteps(n, steps)) && Clean(AfterSteps(n, steps))
    decreases |steps|
  {
    if steps != [] {
      var last := |steps| - 1;
      var front := steps[..last];
      forall i | 0 <= i < |front| ensures !CutsShortAt(n, front, i) {
        assert front[..i] == steps[..i] && !CutsShortAt(n, steps, i);
      }
      AfterStepsClean(n, front);
      assert !CutsShortAt(n, steps, last);
      SteppedCanonical(AfterSteps(n, front), steps[last]);
      SteppedClean(AfterSteps(n, front), steps[last]);
    }
  }

  lemma {:induction false} AfterStepsCanonical(n: Node, steps: seq<Step>)
    requires Canonical(n)
    ensures Canonical(AfterSteps(n, steps))
    decreases |steps|
  {
    if steps != [] {
      AfterStepsCanonical(n, steps[..|steps| - 1]);
      SteppedCanonical(AfterSteps(n, steps[..|steps| - 1]), steps[|steps| - 1]);
    }
  }

  /** At the end of any run the cached hash is right exactly when the root is a stub or nothing below is stale. */
  lemma RunHashIff(n: Node, steps: seq<Step>)
    requires Canonical(n) && ReloadsApart(AfterSteps(n, steps))
    ensures TrueHash(AfterSteps(n, steps)) <==> AfterSteps(n, steps).Digest? || Clean(AfterSteps(n, steps))
  {
    AfterStepsCanonical(n, steps);
    TrueHashIff(AfterSteps(n, steps));
  }

  lemma AfterOneMore(n: Node, front: seq<Step>, step: Step)
    ensures AfterSteps(n, front + [step]) == Stepped(AfterSteps(n, front), step)
  {
    assert (front + [step])[..|front|] == front;
  }

  /**
   * After any pruning in a run the cached hash is the hash without caches exactly when the root
   * itself is cut away, or nothing short is, of the trie as it stands before that pruning.
   */
  lemma PruningIff(n: Node, front: seq<Step>, marks: set<Reference>)
    requires Canonical(n) && ReloadsApart(AfterSteps(n, front + [PruneStep(marks)]))
    ensures TrueHash(AfterSteps(n, front + [PruneStep(marks)]))
       <==> CutAway(AfterSteps(n, front), marks) || !CutsShort(AfterSteps(n, front), KeepMarked(marks))
  {
    AfterStepsCanonical(n, front);
    AfterPruning(n, front, marks);
    PrunedHashIff(AfterSteps(n, front), marks);
  }

  lemma AfterPruning(n: Node, front: seq<Step>, marks: set<Reference>)
    ensures AfterSteps(n, front + [PruneStep(marks)]) == Prune(AfterSteps(n, front), marks)
  {
    AfterOneMore(n, front, PruneStep(marks));
  }

  lemma PrunedHashIff(n: Node, marks: set<Reference>)
    requires Canonical(n) && ReloadsApart(Prune(n, marks))
    ensures TrueHash(Prune(n, marks)) <==> CutAway(n, marks) || !CutsShort(n, KeepMarked(marks))
  {
    CutCanonical(n, KeepMarked(marks));
    CutClean(n, KeepMarked(marks));
    TrueHashIff(Prune(n, marks));
  }

  lemma HashesApart(a: Node, b: Node)
    requires !a.Digest? && !b.Digest?
    requires Encode(a) != Encode(b) && NoCollision(iset{Encode(a), Encode(b)})
    ensures Hash(a) != Hash(b)
  {
    assert Hash(a) == KECCAK(Encode(a)) && Hash(b) == KECCAK(Encode(b));
    assert Encode(a) in iset{Encode(a), Encode(b)} && Encode(b) in iset{Encode(a), Encode(b)};
  }

  /** A pruning that changes what is written out leaves a hash that is not the hash without caches. */
  lemma StaleHash(n: Node, marks: set<Reference>)
    requires Canonical(n) && Clean(n) && n.Extension? && KeepMarked(marks)(n)
    requires var loaded := Reload(Prune(n, marks));
      Encode(loaded) != Encode(n) && NoCollision(iset{Encode(n), Encode(loaded)})
    ensures !TrueHash(Prune(n, marks))
  {
    PruneKeepsRoot(n, marks);
    HashesApart(n, Reload(Prune(n, marks)));
  }

  /** Two keys that part in the last nibble are inserted, and the trie is pruned to its root. */
  function StaleSteps(path: Path): seq<Step>
    requires |path| == 63
  {
    [InsertStep(KeyOf(path + [0]), [1]), InsertStep(KeyOf(path + [1]), [1]), PruneStep({Ref(ShortTrie(path))})]
  }

  /** A run from the empty trie at whose end the cached hash is not the hash without caches. */
  lemma StaleRun(path: Path)
    requires |path| == 63
    requires var n := ShortTrie(path); NoCollision(iset{Encode(n), Encode(Reload(Prune(n, {Ref(n)})))})
    ensures !TrueHash(AfterSteps(Null, StaleSteps(path)))
  {
    StaleStepsLead(path);
    ShortTrieStale(path);
    StaleHash(ShortTrie(path), {Ref(ShortTrie(path))});
  }

  lemma StaleStepsLead(path: Path)
    requires |path| == 63
    ensures AfterSteps(Null, StaleSteps(path)) == Prune(ShortTrie(path), {Ref(ShortTrie(path))})
  {
    var steps := StaleSteps(path);
    SplitAtLast(path);
    AfterOneMore(Null, [], steps[0]);
    AfterOneMore(Null, [steps[0]], steps[1]);
    AfterOneMore(Null, [steps[0], steps[1]], steps[2]);
    assert [] + [steps[0]] == [steps[0]] && [steps[0]] + [steps[1]] == [steps[0], steps[1]];
    assert [steps[0], steps[1]] + [steps[2]] == steps;
  }

  // Runs in place.

  /**
   * In whatever order a trie is changed, pruned and hashed, its contents are those of the steps on
   * values. The hash is that of the contents without any cache exactly when the root is a stub or
   * nothing below it is stale; so it is if nothing stale is there at the start and no pruning cuts a
   * short node away.
   */
  method RunInPlace(trie: MptNode, steps: seq<Step>) returns (hash: B256)
    requires trie.Valid() && Canonical(trie.view)
    requires forall i :: 0 <= i < |steps| && steps[i].InsertStep? ==> steps[i].value != []
    modifies trie.repr
    ensures trie.Valid() && fresh(trie.repr - old(trie.repr))
    ensures trie.view == AfterSteps(old(trie.view), steps)
    ensures hash == Hash(AfterSteps(old(trie.view), steps))
    ensures Clean(old(trie.view)) && !CutsShortSometime(old(trie.view), steps) ==>
      Clean(trie.view) && hash == Hash(Reload(trie.view))
    ensures ReloadsApart(trie.view) ==> (hash == Hash(Reload(trie.view)) <==> trie.view.Digest? || Clean(trie.view))
  {
    for i := 0 to |steps|
      invariant trie.Valid() && fresh(trie.repr - old(trie.repr)) && Canonical(trie.view)
      invariant trie.view == AfterSteps(old(trie.view), steps[..i])
    {
      assert steps[..i + 1][..i] == steps[..i];
      SteppedCanonical(trie.view, steps[i]);
      TakeStep(trie, steps[i]);
    }
    assert steps[..|steps|] == steps;
    hash := trie.HashNode();
    if Clean(old(trie.view)) && !CutsShortSometime(old(trie.view), steps) {
      AfterStepsClean(old(trie.view), steps);
      ReloadClean(trie.view);
    }
    if ReloadsApart(trie.view) {
      TrueHashIff(trie.view);
    }
  }

  method TakeStep(trie: MptNode, step: Step)
    requires trie.Valid() && Canonical(trie.view) && (step.InsertStep? ==> step.value != [])
    modifies trie.repr
    ensures trie.Valid() && fresh(trie.repr - old(trie.repr))
    ensures trie.view == Stepped(old(trie.view), step)
  {
    match step
    case InsertStep(key, value) =>
      if Trie.Insert(trie.view, ToNibs(key), value).Done? {
        InsertRefines(trie.view, ToNibs(key), value);
      }
      var _ := trie.Insert(key, value);
    case DeleteStep(key) =>
      DeleteCanonical(trie.view, ToNibs(key));
      if Trie.Delete(trie.view, ToNibs(key)).Done? {
        DeleteRefines(trie.view, ToNibs(key));
      }
      var _ := trie.Delete(key);
    case ClearStep => trie.Clear();
    case HashStep =>
      var _ := trie.HashNode();
    case PruneStep(marks) => trie.PruneUnmarkedNodes(marks);
  }
}
