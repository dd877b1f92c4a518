/** State transitions: the proofs before and after a run of updates are enough for the whole run. */
module Transitions {
  import opened Primitives
  import opened Nibbles
  import opened Trie
  import opened TrieHistory
  import opened NodeCodec
  import opened NodeRoundTrip
  import opened Binding
  import opened Sparse
  import opened SparseRuns
  import opened Touched
  import opened Pruning
  import opened Resolving
  import opened Orphans
  import opened LoneNodes
  import opened Exclusion
  import opened ProofTries

  // What decoding gives.

  /** A trie as the proofs are made from: complete, canonical and small enough to be written out. */
  ghost predicate Complete(n: Node) {
    Canonical(n) && Readable(n) && Resolved(n)
  }

  lemma {:induction false} SurfaceReadable(n: Node)
    requires Readable(n)
    ensures Readable(Surface(n)) && Readable(SurfaceChild(n))
  {
    match n
    case Branch(children) =>
      forall i | 0 <= i < |children| ensures Readable(SurfaceChildren(children)[i]) {
        SurfaceReadable(children[i]);
      }
      SurfaceSized(n);
    case Extension(_, child) =>
      SurfaceReadable(child);
      SurfaceSized(n);
    case _ =>
  }

  /** The surface of a branch or extension is as long as the node. */
  lemma SurfaceSized(n: Node)
    requires Readable(n)
    requires n.Branch? ==> forall i :: 0 <= i < |n.children| ==> Readable(SurfaceChildren(n.children)[i])
    requires n.Extension? ==> Readable(SurfaceChild(n.child))
    ensures Readable(Surface(n))
  {
    SurfaceEncode(n);
  }

  ghost predicate Surfaces(nodes: seq<Node>) {
    forall i :: 0 <= i < |nodes| ==> IsSurface(nodes[i])
  }

  lemma SurfacesAppend(a: seq<Node>, b: seq<Node>)
    requires Surfaces(a) && Surfaces(b)
    ensures Surfaces(a + b)
  {}

  lemma SurfaceIsSurface(n: Node)
    requires Readable(n) && !n.Digest?
    ensures Surfaces([Surface(n)])
  {
    SurfaceReadable(n);
    SurfaceTwice(n);
  }

  /** The nodes of a proof are surfaces. */
  lemma {:induction false} ProofSurfaces(n: Node, key: Path)
    requires Readable(n) && Resolved(n)
    ensures Surfaces(ProofNodes(n, key))
  {
    SurfaceIsSurface(n);
    match n
    case Branch(children) =>
      if key != [] && |children| == 16 {
        ProofSurfaces(children[key[0]], key[1..]);
        SurfacesAppend([Surface(n)], ProofBelow(children[key[0]], key[1..]));
      }
    case Extension(path, child) =>
      if path <= key {
        ProofSurfaces(child, key[|path|..]);
        SurfacesAppend([Surface(n)], ProofBelow(child, key[|path|..]));
      }
    case _ =>
  }

  /** A surface with a shorter path is a surface. */
  lemma ShortenedSurface(n: Node, i: nat)
    requires IsSurface(n) && Merges(n) && i <= |n.path|
    ensures IsSurface(Shortened(n, i))
  {
    GraftShortened(n, i);
    LongerPathLongerEncoding(n.path[..i], Shortened(n, i));
  }

  lemma ShorteningsSurfaces(n: Node)
    requires IsSurface(n)
    ensures Surfaces(Shortenings(n))
  {
    forall i | 0 <= i < |Shortenings(n)| ensures IsSurface(Shortenings(n)[i]) {
      ShortenedSurface(n, i);
    }
  }

  lemma {:induction false} ProofsAreSurfaces(n: Node, keys: seq<Path>)
    requires Readable(n) && Resolved(n)
    ensures Surfaces(NodesOf(ProofsOf(n, keys)))
  {
    if keys != [] {
      var front := keys[..|keys| - 1];
      assert ProofsOf(n, keys)[..|keys| - 1] == ProofsOf(n, front);
      ProofsAreSurfaces(n, front);
      ProofSurfaces(n, keys[|keys| - 1]);
    }
  }

  lemma OrphansForSurfaces(n: Node, key: Bytes)
    requires Readable(n) && Resolved(n)
    ensures Surfaces(OrphansFor((key, ProofNodes(n, ToNibs(key)))))
  {
    var proof := ProofNodes(n, ToNibs(key));
    ProofSurfaces(n, ToNibs(key));
    if proof != [] {
      ShorteningsSurfaces(proof[|proof| - 1]);
    }
  }

  lemma {:induction false} OrphansAreSurfaces(n: Node, keys: seq<Bytes>)
    requires Readable(n) && Resolved(n)
    ensures Surfaces(OrphansOf(FinalProofs(n, keys)))
  {
    if keys != [] {
      var front, last := keys[..|keys| - 1], keys[|keys| - 1];
      assert FinalProofs(n, keys)[..|keys| - 1] == FinalProofs(n, front);
      OrphansAreSurfaces(n, front);
      OrphansForSurfaces(n, last);
      SurfacesAppend(OrphansOf(FinalProofs(n, front)), OrphansFor(FinalProofs(n, keys)[|keys| - 1]));
    }
  }

  /** What is filed from proofs of complete tries can be resolved. */
  lemma ProofsProvable(n: Node, keys: seq<Path>, after: Node, changed: seq<Bytes>)
    requires Complete(n) && Complete(after) && !n.Null? && keys != []
    requires Apart(n, FiledNodes(ProofsOf(n, keys), FinalProofs(after, changed)))
    ensures Provable(n, FiledNodes(ProofsOf(n, keys), FinalProofs(after, changed)))
  {
    ProofsAreSurfaces(n, keys);
    OrphansAreSurfaces(after, changed);
    ProofsIncluded(ProofsOf(n, keys), 0, OrphansOf(FinalProofs(after, changed)));
    assert ProofNodes(n, keys[0])[0] == Surface(n);
  }

  // What is filed.

  lemma RunKeepsComplete(n: Node, ops: seq<Op>)
    requires Complete(n) && Run(n, ops).Some? && Sized(Run(n, ops).value)
    ensures Complete(Run(n, ops).value)
  {
    RunKeepsClean(n, ops);
    forall key ensures !Find(Run(n, ops).value, key).Blocked? {
      FullNotBlocked(n, key);
      RunKeepsResolved(n, ops, key);
    }
    FindsResolved(Run(n, ops).value);
  }

  lemma {:induction false} FindsResolved(n: Node)
    requires Canonical(n) && forall key :: !Find(n, key).Blocked?
    ensures Resolved(n)
  {
    assert n.Digest? ==> Find(n, []).Blocked?;
    match n
    case Branch(children) =>
      forall i: Nibble ensures Resolved(children[i]) {
        forall key ensures !Find(children[i], key).Blocked? {
          assert ([i] + key)[1..] == key;
          assert !Find(n, [i] + key).Blocked?;
        }
        FindsResolved(children[i]);
      }
    case Extension(path, child) =>
      forall key ensures !Find(child, key).Blocked? {
        assert (path + key)[|path|..] == key;
        assert !Find(n, path + key).Blocked?;
      }
      FindsResolved(child);
    case _ =>
  }

  /** Every removed key has a proof from after the run. */
  ghost predicate RemovalsProved(ops: seq<Op>, changed: seq<Bytes>) {
    forall op :: op in ops && op.Remove? ==> exists j :: 0 <= j < |changed| && ToNibs(changed[j]) == op.key
  }

  /** The proofs of absence lead to all shortenings that the deletions need. */
  lemma RunFilesOrphans(n: Node, ops: seq<Op>, after: Node, changed: seq<Bytes>, proofs: seq<seq<Node>>)
    requires Complete(after) && RemovalsProved(ops, changed)
    requires forall key :: key in RemovedKeys(ops) ==> Find(after, key) == Missing
    ensures OrphansFiled(after, RemovedKeys(ops), FiledNodes(proofs, FinalProofs(after, changed)))
  {
    var finals := FinalProofs(after, changed);
    forall key | key in RemovedKeys(ops)
      ensures Includes(FiledNodes(proofs, finals), Shortenings(LastProofNode(after, key)))
    {
      assert Remove(key) in ops;
      var j :| 0 <= j < |changed| && ToNibs(changed[j]) == key;
      GetIsFind(after, key);
      ExclusionProved(after, key);
      OrphansIncluded(finals, j, NodesOf(proofs));
    }
  }

  // The run.

  /** The trie after a run, by what the run removes. */
  lemma RunRemoves(n: Node, ops: seq<Op>)
    requires Canonical(n) && Run(n, ops).Some? && DistinctKeys(ops)
    ensures forall key :: key in RemovedKeys(ops) ==> Find(Run(n, ops).value, key) == Missing
  {
    RunRefines(n, ops);
    forall key | key in RemovedKeys(ops) ensures Find(Run(n, ops).value, key) == Missing {
      var i :| 0 <= i < |ops| && ops[i] == Remove(key);
      OutcomeAt(Find(n, key), ops, i);
    }
  }

  /** A run whose keys are resolved goes through with its insertions first, and comes to the same. */
  lemma Reordered(n: Node, ops: seq<Op>)
    requires Canonical(n) && DistinctKeys(ops) && Run(n, ops).Some?
    requires Run(n, Puts(ops)).Some? && Run(n, Puts(ops) + Removes(ops)).Some?
    ensures Run(Run(n, Puts(ops)).value, Removes(ops)) == Run(n, ops)
  {
    PutsFirst(ops);
    OrderIndependent(n, ops, Puts(ops) + Removes(ops));
    RunAppend(n, Puts(ops), Removes(ops));
  }

  /** All keys have the given length and are resolved in the trie. */
  ghost predicate Reachable(n: Node, length: nat, ops: seq<Op>) {
    forall op :: op in ops ==> |op.key| == length && !Find(n, op.key).Blocked?
  }

  lemma FullRuns(n: Node, length: nat, ops: seq<Op>)
    requires Canonical(n) && Uniform(n, length) && Reachable(n, length, ops)
    ensures Run(n, ops).Some? && Run(n, Puts(ops)).Some? && Run(n, Puts(ops) + Removes(ops)).Some?
  {
    RunGoesThrough(n, length, ops);
    RunGoesThrough(n, length, Puts(ops));
    RunGoesThrough(n, length, Puts(ops) + Removes(ops));
  }

  lemma SparseGoesThrough(sparse: Node, full: Node, length: nat, ops: seq<Op>)
    requires Canonical(sparse) && Canonical(full) && Stands(sparse, full, iset{})
    requires Uniform(full, length) && Reachable(full, length, ops) && Reachable(sparse, length, ops)
    ensures Run(sparse, ops).Some? && Run(sparse, Puts(ops)).Some? && Run(sparse, Puts(ops) + Removes(ops)).Some?
  {
    StandsCovers(sparse, full, iset{});
    FullRuns(full, length, ops);
    CoversRun(sparse, full, ops);
    CoversRun(sparse, full, Puts(ops));
    CoversRun(sparse, full, Puts(ops) + Removes(ops));
  }

  /** The deletions of a run, on a sparse trie after its insertions. */
  lemma DeletionsRecover(sparse: Node, full: Node, removes: seq<Op>, nodes: seq<Node>)
    requires Canonical(sparse) && Canonical(full) && Clean(full) && Stands(sparse, full, iset{})
    requires Run(full, removes).Some? && forall op :: op in removes ==> op.Remove?
    requires OrphansFiled(Run(full, removes).value, RemovedKeys(removes), nodes)
    requires ShowsFiled(sparse, RemovedKeys(removes), nodes)
    ensures Run(sparse, removes).Some?
    ensures Hash(Run(sparse, removes).value) == Hash(Run(full, removes).value)
  {
    RemovesDelete(full, removes);
    DeletableRoot(sparse, full, RemovedKeys(removes), Run(full, removes).value, nodes);
    OnlyRemovedKeys(removes);
    forall i | 0 <= i < |removes| ensures !Find(sparse, removes[i].key).Blocked? {
      assert removes[i].key in RemovedKeys(removes);
    }
    RunStands(sparse, full, RemovedKeys(removes), removes);
  }

  lemma OnlyRemovedKeys(removes: seq<Op>)
    requires forall op :: op in removes ==> op.Remove?
    ensures forall i :: 0 <= i < |removes| ==> removes[i].key in RemovedKeys(removes)
  {
    forall i | 0 <= i < |removes| ensures removes[i].key in RemovedKeys(removes) {
      assert removes[i] in removes && removes[i] == Remove(removes[i].key);
    }
  }

  lemma DeletableRoot(sparse: Node, full: Node, gone: iset<Path>, after: Node, nodes: seq<Node>)
    requires Canonical(full) && Clean(full) && Stands(sparse, full, iset{}) && Canonical(after)
    requires Deleted(full, gone, after) && OrphansFiled(after, gone, nodes) && ShowsFiled(sparse, gone, nodes)
    ensures Stands(sparse, full, gone)
  {
    forall rest: Path ensures [] + rest == rest {}
    DeletableStands(sparse, full, [], sparse, full, gone, after, nodes);
    assert Below(gone, []) == gone;
  }

  /**
   * A whole run of updates with distinct keys, in any order, on a sparse trie that shows the keys
   * and everything that was filed for the removed ones.
   */
  lemma UpdatesRecover(sparse: Node, full: Node, length: nat, ops: seq<Op>, nodes: seq<Node>)
    requires Canonical(sparse) && Canonical(full) && Clean(full) && Stands(sparse, full, iset{})
    requires Uniform(full, length) && Reachable(full, length, ops) && Reachable(sparse, length, ops)
    requires DistinctKeys(ops) && HidesUnfiled(sparse, Filed(nodes))
    requires Run(full, ops).Some? && OrphansFiled(Run(full, ops).value, RemovedKeys(ops), nodes)
    ensures Run(sparse, ops).Some? && Hash(Run(sparse, ops).value) == Hash(Run(full, ops).value)
  {
    var puts, removes := Puts(ops), Removes(ops);
    FullRuns(full, length, ops);
    SparseGoesThrough(sparse, full, length, ops);
    Reordered(full, ops);
    Reordered(sparse, ops);
    RunStands(sparse, full, iset{}, puts);
    RunKeepsClean(full, puts);
    RunUnfiled(sparse, puts, Filed(nodes));
    assert RemovedKeys(removes) == RemovedKeys(ops);
    forall key | key in RemovedKeys(removes) ensures !Find(Run(sparse, puts).value, key).Blocked? {
      assert Remove(key) in ops;
      RunKeepsResolved(sparse, puts, key);
    }
    DeletionsRecover(Run(sparse, puts).value, Run(full, puts).value, removes, nodes);
  }

  // The trie that is built.

  /** What is built from the proofs of a complete trie, with those of another one after it. */
  function BuiltFrom(n: Node, keys: seq<Path>, after: Node, changed: seq<Bytes>, fuel: nat)
    : Result<Node, BuildFailure>
  {
    Built(ProofsOf(n, keys), FinalProofs(after, changed), Hash(n), fuel)
  }

  /** No two encodings of nodes of the tries and of their proofs have the same hash. */
  ghost predicate ProofsApart(n: Node, keys: seq<Path>, after: Node, changed: seq<Bytes>) {
    Apart(n, FiledNodes(ProofsOf(n, keys), FinalProofs(after, changed)))
  }

  lemma {:induction false} NoProofsOfNull(keys: seq<Path>)
    ensures RootNode(ProofsOf(Null, keys)) == Null
  {
    if keys != [] {
      var front := keys[..|keys| - 1];
      assert ProofsOf(Null, keys)[..|keys| - 1] == ProofsOf(Null, front);
      NoProofsOfNull(front);
    }
  }

  /** The trie is built, and is the complete trie as far as the filed nodes show it. */
  lemma BuiltShows(n: Node, keys: seq<Path>, after: Node, changed: seq<Bytes>, fuel: nat)
    requires Complete(n) && Complete(after) && keys != [] && Depth(n) <= fuel && ProofsApart(n, keys, after, changed)
    ensures BuiltFrom(n, keys, after, changed, fuel)
      == Success(Shown(n, FiledNodes(ProofsOf(n, keys), FinalProofs(after, changed))))
  {
    FitsAll(n, keys, after, changed);
    if n.Null? {
      NoProofsOfNull(keys);
    } else {
      var nodes := FiledNodes(ProofsOf(n, keys), FinalProofs(after, changed));
      ProofsProvable(n, keys, after, changed);
      RootNodeOfProofs(n, keys);
      ResolveShows(n, nodes, fuel);
    }
  }

  /** It answers every proven key as the complete trie does. */
  lemma BuiltAnswers(n: Node, keys: seq<Path>, after: Node, changed: seq<Bytes>, fuel: nat, i: nat)
    requires Complete(n) && Complete(after) && Depth(n) <= fuel && ProofsApart(n, keys, after, changed)
    requires i < |keys|
    ensures var nodes := FiledNodes(ProofsOf(n, keys), FinalProofs(after, changed));
      Find(Shown(n, nodes), keys[i]) == Find(n, keys[i])
  {
    if !n.Null? {
      var nodes := FiledNodes(ProofsOf(n, keys), FinalProofs(after, changed));
      ProofsProvable(n, keys, after, changed);
      ProofsIncluded(ProofsOf(n, keys), i, OrphansOf(FinalProofs(after, changed)));
      ResolveShows(n, nodes, fuel);
      ProofsAnswer(n, nodes, fuel, keys[i]);
    }
  }

  /** The trie that is built from proofs of one complete trie answers every proven key as that trie does. */
  lemma ProofsRecover(n: Node, keys: seq<Path>, fuel: nat)
    requires Complete(n) && keys != [] && Depth(n) <= fuel && ProofsApart(n, keys, Null, [])
    ensures var built := Built(ProofsOf(n, keys), [], Hash(n), fuel);
      && built.Success? && Hash(built.value) == Hash(n)
      && forall k :: k in keys ==> Find(built.value, k) == Find(n, k)
  {
    assert FinalProofs(Null, []) == [];
    BuiltShows(n, keys, Null, [], fuel);
    forall k | k in keys ensures Find(Shown(n, FiledNodes(ProofsOf(n, keys), [])), k) == Find(n, k) {
      var i :| 0 <= i < |keys| && keys[i] == k;
      BuiltAnswers(n, keys, Null, [], fuel, i);
    }
  }

  /** A run of updates of proven keys of one length, each key once, and with a final proof of what it removes. */
  ghost predicate Proven(ops: seq<Op>, length: nat, keys: seq<Path>, changed: seq<Bytes>) {
    && DistinctKeys(ops) && RemovalsProved(ops, changed)
    && forall op :: op in ops ==> |op.key| == length && op.key in keys
  }

  /** On the complete trie such a run goes through. */
  lemma ProvenRuns(n: Node, length: nat, keys: seq<Path>, changed: seq<Bytes>, ops: seq<Op>)
    requires Complete(n) && Uniform(n, length) && Proven(ops, length, keys, changed)
    ensures Run(n, ops).Some? && Reachable(n, length, ops)
  {
    forall op | op in ops ensures !Find(n, op.key).Blocked? {
      FullNotBlocked(n, op.key);
    }
    FullRuns(n, length, ops);
  }

  /**
   * A state transition: from proofs of some keys of a complete trie, and proofs of changed keys
   * after a run of insertions and deletions of proven keys, the trie that is built has the old root,
   * answers every proven key as the complete trie does, takes the whole run, in whatever order, and
   * then has the new root.
   */
  lemma TransitionRecovers(
      n: Node, length: nat, keys: seq<Path>, changed: seq<Bytes>, ops: seq<Op>, after: Node, fuel: nat)
    requires Complete(n) && Uniform(n, length) && keys != [] && Depth(n) <= fuel
    requires Proven(ops, length, keys, changed)
    requires Run(n, ops) == Some(after) && Sized(after) && ProofsApart(n, keys, after, changed)
    ensures var built := BuiltFrom(n, keys, after, changed, fuel);
      && built.Success? && Canonical(built.value) && Hash(built.value) == Hash(n)
      && (forall k :: k in keys ==> Find(built.value, k) == Find(n, k))
      && Run(built.value, ops).Some? && Hash(Run(built.value, ops).value) == Hash(after)
  {
    var proofs := ProofsOf(n, keys);
    var nodes := FiledNodes(proofs, FinalProofs(after, changed));
    var shown := Shown(n, nodes);
    RunKeepsComplete(n, ops);
    BuiltShows(n, keys, after, changed, fuel);
    CutCanonical(n, KeepStored(Filed(nodes)));
    forall k | k in keys ensures Find(shown, k) == Find(n, k) {
      var i :| 0 <= i < |keys| && keys[i] == k;
      BuiltAnswers(n, keys, after, changed, fuel, i);
    }
    ProvenRuns(n, length, keys, changed, ops);
    RunRemoves(n, ops);
    RunFilesOrphans(n, ops, after, changed, proofs);
    ShownStands(n, nodes);
    UpdatesRecover(shown, n, length, ops, nodes);
  }

  lemma ShownStands(n: Node, nodes: seq<Node>)
    requires Complete(n)
    ensures Stands(Shown(n, nodes), n, iset{}) && HidesUnfiled(Shown(n, nodes), Filed(nodes))
    ensures Hash(Shown(n, nodes)) == Hash(n)
  {
    var keep := KeepStored(Filed(nodes));
    NothingNeeded(n, iset{});
    CutStands(n, keep, iset{}, iset{}, iset{});
    CutKeepsRef(n, keep);
    forall key ensures UnfiledLookup(Find(Shown(n, nodes), key), Filed(nodes)) {
      ShownUnfiled(n, Filed(nodes), key);
    }
  }
}
