/** Pruning a trie to what a series of lookups and deletions touched. */
module Pruning {
  import opened Primitives
  import opened Trie
  import opened TrieMap
  import opened TrieForm
  import opened TrieHistory
  import opened NodeCodec
  import opened Binding
  import opened Sparse
  import opened Touched

  // A series of lookups and deletions, and the references it collects.

  datatype Visit = Look(key: Path) | Drop(key: Path)

  ghost predicate Visits(visits: seq<Visit>, key: Path) {
    exists i :: 0 <= i < |visits| && visits[i].key == key
  }

  ghost predicate Drops(visits: seq<Visit>, key: Path) {
    exists i :: 0 <= i < |visits| && visits[i] == Drop(key)
  }

  ghost function VisitedKeys(visits: seq<Visit>): iset<Path> {
    iset key | Visits(visits, key)
  }

  ghost function DroppedKeys(visits: seq<Visit>): iset<Path> {
    iset key | Drops(visits, key)
  }

  /** The trie after a visit: the source unwraps the result of each deletion. */
  function Visited(n: Node, visit: Visit): Update {
    match visit
    case Look(_) => Done(n, false)
    case Drop(key) => Delete(n, key)
  }

  function VisitRefs(n: Node, visit: Visit): set<Reference> {
    match visit
    case Look(key) => PathRefs(n, key)
    case Drop(key) => DeleteRefs(n, key)
  }

  /** Everything a series collects; `None` if one of its deletions fails. */
  function Collect(n: Node, visits: seq<Visit>): Option<set<Reference>>
    decreases |visits|
  {
    if visits == [] then Some({})
    else
      var after := Visited(n, visits[0]);
      if after.Failed? then None
      else
        var rest := Collect(after.node, visits[1..]);
        if rest.None? then None else Some(VisitRefs(n, visits[0]) + rest.value)
  }

  lemma FirstVisit(visits: seq<Visit>)
    requires visits != []
    ensures VisitedKeys(visits) == VisitedKeys(visits[1..]) + iset{visits[0].key}
    ensures DroppedKeys(visits) == DroppedKeys(visits[1..]) + if visits[0].Drop? then iset{visits[0].key} else iset{}
  {
    forall key ensures Visits(visits, key) <==> Visits(visits[1..], key) || key == visits[0].key {
      if Visits(visits, key) {
        var i :| 0 <= i < |visits| && visits[i].key == key;
        assert i > 0 ==> visits[1..][i - 1] == visits[i];
      }
      if Visits(visits[1..], key) {
        var i :| 0 <= i < |visits[1..]| && visits[1..][i].key == key;
        assert visits[i + 1] == visits[1..][i];
      }
    }
    forall key ensures Drops(visits, key) <==> Drops(visits[1..], key) || visits[0] == Drop(key) {
      if Drops(visits, key) {
        var i :| 0 <= i < |visits| && visits[i] == Drop(key);
        assert i > 0 ==> visits[1..][i - 1] == visits[i];
      }
      if Drops(visits[1..], key) {
        var i :| 0 <= i < |visits[1..]| && visits[1..][i] == Drop(key);
        assert visits[i + 1] == visits[1..][i];
      }
    }
  }

  lemma DroppedAreVisited(visits: seq<Visit>)
    ensures DroppedKeys(visits) <= VisitedKeys(visits)
  {
    forall key | Drops(visits, key) ensures Visits(visits, key) {
      var i :| 0 <= i < |visits| && visits[i] == Drop(key);
      assert visits[i].key == key;
    }
  }

  /** What a series collects on the way covers everything its keys need of the trie it started from. */
  lemma {:induction false} CollectRecords(n: Node, visits: seq<Visit>, marks: iset<Reference>)
    requires Canonical(n) && Collect(n, visits).Some?
    requires forall r :: r in Collect(n, visits).value ==> r in marks
    ensures RecordedBelow(n, VisitedKeys(visits), DroppedKeys(visits), marks)
    ensures visits != [] ==> Marked(n, marks)
    decreases |visits|
  {
    if visits == [] {
      assert VisitedKeys(visits) == iset{} && DroppedKeys(visits) == iset{};
      NothingNeeded(n, marks);
    } else {
      var rest, key := visits[1..], visits[0].key;
      FirstVisit(visits);
      DroppedAreVisited(rest);
      var after := Visited(n, visits[0]).node;
      var first, later := VisitRefs(n, visits[0]), Collect(after, rest).value;
      assert Collect(n, visits).value == first + later;
      assert forall r :: r in first || r in later ==> r in Collect(n, visits).value;
      if visits[0].Look? {
        assert DroppedKeys(visits) == DroppedKeys(rest);
        CollectRecords(n, rest, marks);
        LookRecords(n, key, VisitedKeys(rest), DroppedKeys(rest), marks);
      } else {
        DeleteCanonical(n, key);
        CollectRecords(Delete(n, key).node, rest, marks);
        DropRecords(n, key, VisitedKeys(rest), DroppedKeys(rest), marks);
        RootMarked(n, key, marks);
      }
    }
  }

  // Cutting a trie down to the nodes that are kept.

  /** The hash that takes a node's place; a short encoding survives in the reference cache. */
  function Stub(n: Node): Node {
    match Ref(n)
    case RefBytes(bytes) => Digest(KECCAK(bytes), Some(bytes))
    case RefDigest(digest) => Digest(digest, None)
  }

  function Cut(n: Node, keep: Node -> bool): (result: Node)
    ensures result.Null? <==> n.Null?
    decreases n, 0
  {
    if n.Null? then n
    else if !keep(n) then Stub(n)
    else
      match n
      case Branch(children) => Branch(CutAll(children, keep))
      case Extension(path, child) => Extension(path, Cut(child, keep))
      case Digest(digest, _) => Digest(digest, None)
      case Leaf(_, _) => n
  }

  function CutAll(children: seq<Node>, keep: Node -> bool): (result: seq<Node>)
    ensures |result| == |children|
    ensures forall i :: 0 <= i < |children| ==> result[i] == Cut(children[i], keep)
    decreases children, 0
  {
    if children == [] then [] else [Cut(children[0], keep)] + CutAll(children[1..], keep)
  }

  /** The nodes that pruning keeps: the marked ones, and every leaf. */
  function KeepMarked(marks: set<Reference>): Node -> bool {
    (n: Node) => n.Leaf? || Ref(n) in marks
  }

  /** `prune_unmarked_nodes`. */
  function Prune(n: Node, marks: set<Reference>): Node {
    Cut(n, KeepMarked(marks))
  }

  // What pruning leaves.

  /**
   * `pruned` is `n` pruned by `marks`: leaves stay, marked branches and extensions stay with their
   * children pruned, and every other node is the stub with its hash, which keeps the reference of
   * the node if that is its encoding and the node is not marked.
   */
  ghost predicate IsPruned(pruned: Node, n: Node, marks: set<Reference>) {
    if n.Null? || n.Leaf? then pruned == n
    else if Ref(n) !in marks then
      && pruned.Digest? && pruned.digest == Hash(n)
      && (n.Digest? ==> pruned.residue == n.residue)
      && (!n.Digest? && |Encode(n)| < 32 ==> pruned.residue == Some(Encode(n)))
      && (!n.Digest? && |Encode(n)| >= 32 ==> pruned.residue == None)
    else
      match n
      case Branch(children) =>
        && pruned.Branch? && |pruned.children| == |children|
        && forall i :: 0 <= i < |children| ==> IsPruned(pruned.children[i], children[i], marks)
      case Extension(path, child) =>
        pruned.Extension? && pruned.path == path && IsPruned(pruned.child, child, marks)
      case Digest(digest, _) => pruned == Digest(digest, None)
  }

  lemma {:induction false} PruneIsPruned(n: Node, marks: set<Reference>)
    ensures IsPruned(Prune(n, marks), n, marks)
  {
    match n
    case Branch(children) =>
      forall i | 0 <= i < |children| ensures IsPruned(Prune(children[i], marks), children[i], marks) {
        PruneIsPruned(children[i], marks);
      }
    case Extension(_, child) => PruneIsPruned(child, marks);
    case _ =>
  }

  /** Whatever is pruned by some marks is what `Prune` makes of it. */
  lemma {:induction false} PrunedIsPrune(pruned: Node, n: Node, marks: set<Reference>)
    requires IsPruned(pruned, n, marks)
    ensures pruned == Prune(n, marks)
    decreases n
  {
    if Ref(n) in marks {
      match n
      case Branch(children) =>
        forall i | 0 <= i < |children| ensures pruned.children[i] == Prune(children[i], marks) {
          PrunedIsPrune(pruned.children[i], children[i], marks);
        }
        assert pruned.children == CutAll(children, KeepMarked(marks));
      case Extension(_, child) => PrunedIsPrune(pruned.child, child, marks);
      case _ =>
    }
  }

  /** An unmarked node that is not a leaf lies on the path of a key. */
  predicate UnmarkedOnPath(n: Node, key: Path, marks: set<Reference>) {
    match n
    case Null => false
    case Leaf(_, _) => false
    case Digest(_, _) => Ref(n) !in marks
    case Branch(children) =>
      Ref(n) !in marks || (key != [] && |children| == 16 && UnmarkedOnPath(children[key[0]], key[1..], marks))
    case Extension(path, child) =>
      Ref(n) !in marks || (path <= key && UnmarkedOnPath(child, key[|path|..], marks))
  }

  /** A pruned trie is blocked exactly where the trie was, and below unmarked nodes; elsewhere it is as it was. */
  lemma {:induction false} PruneBlocks(n: Node, marks: set<Reference>, key: Path)
    ensures Find(Prune(n, marks), key).Blocked? <==> Find(n, key).Blocked? || UnmarkedOnPath(n, key, marks)
    ensures !Find(Prune(n, marks), key).Blocked? ==> Find(Prune(n, marks), key) == Find(n, key)
    decreases n
  {
    match n
    case Branch(children) =>
      if key != [] && |children| == 16 {
        PruneBlocks(children[key[0]], marks, key[1..]);
      }
    case Extension(path, child) =>
      if path <= key {
        PruneBlocks(child, marks, key[|path|..]);
      }
    case _ =>
  }

  ghost predicate Keeps(keep: Node -> bool, marks: iset<Reference>) {
    forall n :: Ref(n) in marks ==> keep(n)
  }

  /** A trie cut down to what was recorded for some keys stands for the whole trie under updates of them. */
  lemma {:induction false} CutStands(
      n: Node, keep: Node -> bool, keys: iset<Path>, deletable: iset<Path>, marks: iset<Reference>)
    requires Canonical(n) && Clean(n) && deletable <= keys
    requires RecordedBelow(n, keys, deletable, marks) && Keeps(keep, marks)
    ensures Stands(Cut(n, keep), n, deletable)
    decreases n
  {
    if !n.Null? && keep(n) {
      match n
      case Branch(children) =>
        forall i: Nibble
          ensures Stands(Cut(children[i], keep), children[i], Below(deletable, [i]))
          ensures Brittle(Cut(children[i], keep), children[i]) ==> AnotherAlive(children, i, deletable)
        {
          RecordedInside(children[i], Below(keys, [i]), Below(deletable, [i]), marks);
          CutStands(children[i], keep, Below(keys, [i]), Below(deletable, [i]), marks);
        }
      case Extension(path, child) =>
        RecordedInside(child, Below(keys, path), Below(deletable, path), marks);
        CutStands(child, keep, Below(keys, path), Below(deletable, path), marks);
      case _ =>
    }
  }

  lemma BelowHas(keys: iset<Path>, prefix: Path, key: Path)
    requires key in keys && prefix <= key
    ensures key[|prefix|..] in Below(keys, prefix)
  {
    SplitKey(prefix, key);
  }

  /** Keys whose paths were recorded are blocked after the cut only where they were before. */
  lemma {:induction false} CutResolves(
      n: Node, keep: Node -> bool, keys: iset<Path>, deletable: iset<Path>, marks: iset<Reference>, key: Path)
    requires Canonical(n) && key in keys
    requires Recorded(n, keys, deletable, marks) && Keeps(keep, marks)
    ensures Find(Cut(n, keep), key).Blocked? ==> Find(n, key).Blocked?
    decreases n
  {
    match n
    case Branch(children) =>
      if key != [] {
        BelowHas(keys, [key[0]], key);
        CutResolves(children[key[0]], keep, Below(keys, [key[0]]), Below(deletable, [key[0]]), marks, key[1..]);
      }
    case Extension(path, child) =>
      if path <= key {
        BelowHas(keys, path, key);
        CutResolves(child, keep, Below(keys, path), Below(deletable, path), marks, key[|path|..]);
      }
    case _ =>
  }

  lemma {:induction false} CutWellFormed(n: Node, keep: Node -> bool)
    requires Canonical(n) && Clean(n)
    ensures WellFormed(Cut(n, keep))
    decreases n
  {
    if !n.Null? && keep(n) {
      match n
      case Branch(children) =>
        forall i | 0 <= i < 16 ensures WellFormed(Cut(children[i], keep)) {
          CutWellFormed(children[i], keep);
        }
      case Extension(path, child) => CutWellFormed(child, keep);
      case _ =>
    }
  }

  lemma {:induction false} CutCanonical(n: Node, keep: Node -> bool)
    requires Canonical(n)
    ensures Canonical(Cut(n, keep))
    ensures n.Branch? || n.Digest? ==> Cut(n, keep).Branch? || Cut(n, keep).Digest?
  {
    if !n.Null? && keep(n) {
      match n
      case Branch(children) =>
        forall i | 0 <= i < 16 ensures Canonical(Cut(children[i], keep)) {
          CutCanonical(children[i], keep);
        }
        var i, j :| 0 <= i < j < 16 && !children[i].Null? && !children[j].Null?;
        assert !Cut(children[i], keep).Null? && !Cut(children[j], keep).Null?;
      case Extension(_, child) => CutCanonical(child, keep);
      case _ =>
    }
  }

  /**
   * A node with an encoding below 32 bytes is cut away: the trie itself, or one below it that is
   * reached through nodes that are kept.
   */
  predicate CutsShort(n: Node, keep: Node -> bool) {
    if n.Null? then false
    else if !keep(n) then if n.Digest? then n.residue.Some? else |Encode(n)| < 32
    else
      match n
      case Branch(children) => exists i :: 0 <= i < |children| && CutsShort(children[i], keep)
      case Extension(_, child) => CutsShort(child, keep)
      case _ => false
  }

  /** No stale reference is left exactly when nothing short is cut away. */
  lemma {:induction false} CutClean(n: Node, keep: Node -> bool)
    ensures Clean(Cut(n, keep)) <==> !CutsShort(n, keep)
  {
    if !n.Null? && keep(n) {
      match n
      case Branch(children) =>
        forall i | 0 <= i < |children| ensures Clean(Cut(children[i], keep)) <==> !CutsShort(children[i], keep) {
          CutClean(children[i], keep);
        }
      case Extension(_, child) => CutClean(child, keep);
      case _ =>
    }
  }

  /** Every branch and every extension has an encoding of at least 32 bytes. */
  predicate LongNodes(n: Node) {
    match n
    case Branch(children) => |Encode(n)| >= 32 && forall i :: 0 <= i < |children| ==> LongNodes(children[i])
    case Extension(_, child) => |Encode(n)| >= 32 && LongNodes(child)
    case _ => true
  }

  /** Pruning keeps all leaves, so without short branches and extensions it cuts nothing short. */
  lemma {:induction false} LongNodesSafe(n: Node, marks: set<Reference>)
    requires LongNodes(n) && Clean(n)
    ensures !CutsShort(n, KeepMarked(marks))
  {
    match n
    case Branch(children) =>
      forall i | 0 <= i < |children| ensures !CutsShort(children[i], KeepMarked(marks)) {
        LongNodesSafe(children[i], marks);
      }
    case Extension(_, child) => LongNodesSafe(child, marks);
    case _ =>
  }

  lemma CutFork(i: Nibble, left: Node, j: Nibble, right: Node, keep: Node -> bool)
    requires i != j && keep(Fork([], i, left, j, right))
    ensures Cut(Fork([], i, left, j, right), keep) == Fork([], i, Cut(left, keep), j, Cut(right, keep))
  {
    var children := EmptySlots()[i := left][j := right];
    var cut := EmptySlots()[i := Cut(left, keep)][j := Cut(right, keep)];
    forall m: Nibble ensures CutAll(children, keep)[m] == cut[m] {}
    assert CutAll(children, keep) == cut;
  }

  /** Pruning, whatever it marks, keeps the reference as long as the reference caches live. */
  lemma CutKeepsRef(n: Node, keep: Node -> bool)
    requires Canonical(n) && Clean(n)
    ensures Ref(Cut(n, keep)) == Ref(n) && Hash(Cut(n, keep)) == Hash(n)
  {
    NothingNeeded(n, iset{});
    CutStands(n, keep, iset{}, iset{}, iset{});
    StandsRef(Cut(n, keep), n, iset{});
  }

  /** The lookup on a sparse trie is right exactly at resolved keys, and at keys that the full trie does not have. */
  lemma StandsGetIff(sparse: Node, full: Node, deletable: iset<Path>, key: Path)
    requires WellFormed(sparse) && WellFormed(full) && Stands(sparse, full, deletable)
    ensures Get(sparse, key) == Get(full, key) <==> !Find(sparse, key).Blocked? || Get(full, key).None?
  {
    StandsFind(sparse, full, deletable, key);
    GetIsFind(sparse, key);
    GetIsFind(full, key);
  }

  /** So a trie of which parts were cut away answers a key rightly exactly if it was absent or is still resolved. */
  lemma CutGetIff(n: Node, keep: Node -> bool, key: Path)
    requires Canonical(n) && Clean(n)
    ensures Get(Cut(n, keep), key) == Get(n, key) <==> !Find(Cut(n, keep), key).Blocked? || Get(n, key).None?
  {
    NothingNeeded(n, iset{});
    CutStands(n, keep, iset{}, iset{}, iset{});
    CutWellFormed(n, keep);
    StandsGetIff(Cut(n, keep), n, iset{}, key);
  }

  /** The asserts in `EthereumState::prune` cannot fail, however short the pruned nodes are. */
  lemma PruneKeepsRoot(n: Node, marks: set<Reference>)
    requires Canonical(n) && Clean(n)
    ensures Hash(Prune(n, marks)) == Hash(n)
  {
    CutKeepsRef(n, KeepMarked(marks));
  }

  /** Pruning keeps the answer for every key that was visited, and its whole lookup if that is resolved. */
  lemma PruneKeepsVisited(n: Node, visits: seq<Visit>, marks: set<Reference>, key: Path)
    requires Canonical(n) && Clean(n)
    requires Collect(n, visits).Some? && Collect(n, visits).value <= marks
    requires Visits(visits, key)
    ensures Get(Prune(n, marks), key) == Get(n, key)
    ensures Find(Prune(n, marks), key).Blocked? <==> Find(n, key).Blocked?
    ensures !Find(n, key).Blocked? ==> Find(Prune(n, marks), key) == Find(n, key)
  {
    var all := iset r | r in marks;
    CollectRecords(n, visits, all);
    DroppedAreVisited(visits);
    CutStands(n, KeepMarked(marks), VisitedKeys(visits), DroppedKeys(visits), all);
    CutResolves(n, KeepMarked(marks), VisitedKeys(visits), DroppedKeys(visits), all, key);
    StandsFind(Prune(n, marks), n, DroppedKeys(visits), key);
    CutWellFormed(n, KeepMarked(marks));
    GetIsFind(n, key);
    GetIsFind(Prune(n, marks), key);
  }

  /** The updates stay within what a series of visits announced: deleted keys were deleted there too. */
  ghost predicate Announced(ops: seq<Op>, visits: seq<Visit>) {
    forall i :: 0 <= i < |ops| ==>
      Visits(visits, ops[i].key) && (ops[i].Remove? ==> Drops(visits, ops[i].key))
  }

  /**
   * Pruning is adequate: whatever run of announced updates the whole trie can apply, in whatever
   * order, the pruned trie can apply too, and the root hash comes out the same.
   */
  lemma PruneAdequate(n: Node, visits: seq<Visit>, marks: set<Reference>, ops: seq<Op>)
    requires Canonical(n) && Clean(n)
    requires Collect(n, visits).Some? && Collect(n, visits).value <= marks
    requires Announced(ops, visits) && Run(n, ops).Some?
    ensures Canonical(Prune(n, marks)) && Run(Prune(n, marks), ops).Some?
    ensures Hash(Run(Prune(n, marks), ops).value) == Hash(Run(n, ops).value)
  {
    var pruned := Prune(n, marks);
    var all := iset r | r in marks;
    var keys, dropped := VisitedKeys(visits), DroppedKeys(visits);
    CollectRecords(n, visits, all);
    DroppedAreVisited(visits);
    CutStands(n, KeepMarked(marks), keys, dropped, all);
    CutWellFormed(n, KeepMarked(marks));
    StandsCanonical(pruned, n, dropped);
    RunFindsKeys(n, ops);
    forall i | 0 <= i < |ops| ensures !Find(pruned, ops[i].key).Blocked? {
      assert Visits(visits, ops[i].key);
      CutResolves(n, KeepMarked(marks), keys, dropped, all, ops[i].key);
    }
    RunStands(pruned, n, dropped, ops);
  }

  /** A run that goes through meets no unresolved node, so there was none on its keys' paths. */
  lemma {:induction false} RunFindsKeys(n: Node, ops: seq<Op>)
    requires Canonical(n) && Run(n, ops).Some?
    ensures forall i :: 0 <= i < |ops| ==> !Find(n, ops[i].key).Blocked?
    decreases |ops|
  {
    if ops != [] {
      UpdatedNotBlocked(n, ops[0]);
      ApplyRefines(n, ops[0]);
      RunFindsKeys(Apply(n, ops[0]).node, ops[1..]);
      forall i | 0 <= i < |ops| ensures !Find(n, ops[i].key).Blocked? {
        if i > 0 {
          assert ops[i] == ops[1..][i - 1];
        }
      }
    }
  }

  // Serialization drops the reference caches.

  /** A trie after it was written out and read back: the residues are gone. */
  function Reload(n: Node): Node {
    match n
    case Branch(children) => Branch(ReloadAll(children))
    case Extension(path, child) => Extension(path, Reload(child))
    case Digest(digest, _) => Digest(digest, None)
    case _ => n
  }

  function ReloadAll(children: seq<Node>): (result: seq<Node>)
    ensures |result| == |children|
    ensures forall i :: 0 <= i < |children| ==> result[i] == Reload(children[i])
  {
    if children == [] then [] else [Reload(children[0])] + ReloadAll(children[1..])
  }

  lemma ReloadFork(i: Nibble, left: Node, j: Nibble, right: Node)
    requires i != j
    ensures Reload(Fork([], i, left, j, right)) == Fork([], i, Reload(left), j, Reload(right))
  {
    var children := EmptySlots()[i := left][j := right];
    var loaded := EmptySlots()[i := Reload(left)][j := Reload(right)];
    forall m: Nibble ensures ReloadAll(children)[m] == loaded[m] {}
    assert ReloadAll(children) == loaded;
  }

  lemma {:induction false} ReloadClean(n: Node)
    ensures Clean(Reload(n))
    ensures Clean(n) ==> Reload(n) == n
  {
    match n
    case Branch(children) =>
      forall i | 0 <= i < |children|
        ensures Clean(Reload(children[i])) && (Clean(children[i]) ==> Reload(children[i]) == children[i])
      {
        ReloadClean(children[i]);
      }
      assert Clean(n) ==> ReloadAll(children) == children;
    case Extension(_, child) => ReloadClean(child);
    case _ =>
  }

  lemma {:induction false} ReloadWellFormed(n: Node)
    requires WellFormed(n)
    ensures WellFormed(Reload(n))
  {
    match n
    case Branch(children) =>
      forall i | 0 <= i < 16 ensures WellFormed(Reload(children[i])) {
        ReloadWellFormed(children[i]);
      }
    case Extension(_, child) => ReloadWellFormed(child);
    case _ =>
  }

  lemma {:induction false} ReloadRefIff(n: Node, keep: Node -> bool)
    requires Canonical(n) && Readable(n)
    requires Sized(Reload(Cut(n, keep))) && Distinguishable(Reload(Cut(n, keep)), n)
    ensures Ref(Reload(Cut(n, keep))) == Ref(n) <==> Clean(Cut(n, keep))
    decreases n, 1
  {
    var cut := Cut(n, keep);
    var loaded := Reload(cut);
    ReloadClean(cut);
    if Clean(cut) {
      CutKeepsRef(n, keep);
    } else if keep(n) && Ref(loaded) == Ref(n) {
      CutWellFormed(n, keep);
      ReloadWellFormed(cut);
      SameSurface(loaded, n);
      SameChildRefs(loaded, n);
      ReloadedChildren(n, keep);
    }
  }

  /** If the references of all children survived reloading, nothing short was cut below them. */
  lemma {:induction false} ReloadedChildren(n: Node, keep: Node -> bool)
    requires Canonical(n) && Readable(n) && keep(n)
    requires Sized(Reload(Cut(n, keep))) && Distinguishable(Reload(Cut(n, keep)), n)
    requires n.Branch? ==>
      forall i :: 0 <= i < 16 ==> Ref(Reload(Cut(n.children[i], keep))) == Ref(n.children[i])
    requires n.Extension? ==> Ref(Reload(Cut(n.child, keep))) == Ref(n.child)
    ensures Clean(Cut(n, keep))
    decreases n, 0
  {
    var loaded := Reload(Cut(n, keep));
    match n
    case Branch(children) =>
      forall i | 0 <= i < 16 ensures Clean(Cut(children[i], keep)) {
        ChildEncodings(loaded.children, i);
        ChildEncodings(children, i);
        DistinguishableBelow(loaded, n, loaded.children[i], children[i]);
        ReloadRefIff(children[i], keep);
      }
    case Extension(_, child) =>
      DistinguishableBelow(loaded, n, loaded.child, child);
      ReloadRefIff(child, keep);
    case _ =>
  }

  /** Pruning leaves nothing but the hash of the root. */
  predicate CutAway(n: Node, marks: set<Reference>) {
    !n.Null? && !n.Leaf? && Ref(n) !in marks
  }

  /**
   * After the pruned trie is written out and read back, its root hash is still right exactly when
   * the root itself is cut away, or no node with an encoding below 32 bytes is.
   */
  lemma ReloadedRootIff(n: Node, marks: set<Reference>)
    requires Canonical(n) && Readable(n) && !n.Digest?
    requires var loaded := Reload(Prune(n, marks)); Sized(loaded) && Distinguishable(loaded, n)
    ensures Hash(Reload(Prune(n, marks))) == Hash(n) <==> CutAway(n, marks) || !CutsShort(n, KeepMarked(marks))
  {
    var keep := KeepMarked(marks);
    CutClean(n, keep);
    var loaded := Reload(Prune(n, marks));
    if !n.Null? && keep(n) {
      ReloadRefIff(n, keep);
      CutWellFormed(n, keep);
      ReloadWellFormed(Cut(n, keep));
      ReloadClean(Cut(n, keep));
      if Hash(loaded) == Hash(n) {
        SameHash(loaded, n);
      }
    }
  }

  /** Adequacy for the trie that the other side reads: what was cut away must not be short. */
  lemma ReloadedAdequate(n: Node, visits: seq<Visit>, marks: set<Reference>, ops: seq<Op>)
    requires Canonical(n) && Clean(n) && !CutsShort(n, KeepMarked(marks))
    requires Collect(n, visits).Some? && Collect(n, visits).value <= marks
    requires Announced(ops, visits) && Run(n, ops).Some?
    ensures var loaded := Reload(Prune(n, marks));
      && Canonical(loaded) && Hash(loaded) == Hash(n)
      && Run(loaded, ops).Some? && Hash(Run(loaded, ops).value) == Hash(Run(n, ops).value)
  {
    CutClean(n, KeepMarked(marks));
    ReloadClean(Prune(n, marks));
    PruneAdequate(n, visits, marks, ops);
    PruneKeepsRoot(n, marks);
  }

  // Clean tries, by their lookups.

  ghost predicate CleanLookup(lookup: Lookup) {
    lookup.Blocked? ==> Clean(lookup.stub)
  }

  /** A trie is clean when no lookup ends at a stub with a residue. */
  ghost predicate CleanLookups(n: Node) {
    forall path :: CleanLookup(Find(n, path))
  }

  lemma {:induction false} CleanFinds(n: Node, path: Path)
    requires Clean(n)
    ensures CleanLookup(Find(n, path))
  {
    match n
    case Branch(children) =>
      if path != [] && |children| == 16 {
        CleanFinds(children[path[0]], path[1..]);
      }
    case Extension(prefix, child) =>
      if prefix <= path {
        CleanFinds(child, path[|prefix|..]);
      }
    case _ =>
  }

  lemma {:induction false} FindsClean(n: Node)
    requires Canonical(n) && CleanLookups(n)
    ensures Clean(n)
  {
    match n
    case Branch(children) =>
      forall i: Nibble ensures Clean(children[i]) {
        forall path ensures CleanLookup(Find(children[i], path)) {
          assert ([i] + path)[1..] == path;
          assert CleanLookup(Find(n, [i] + path));
        }
        FindsClean(children[i]);
      }
    case Extension(prefix, child) =>
      forall path ensures CleanLookup(Find(child, path)) {
        assert (prefix + path)[|prefix|..] == path;
        assert CleanLookup(Find(n, prefix + path));
      }
      FindsClean(child);
    case Digest(_, _) => assert CleanLookup(Find(n, []));
    case _ =>
  }

  lemma DeleteKeepsClean(n: Node, key: Path)
    requires Canonical(n) && Clean(n) && Delete(n, key).Done?
    ensures Clean(Delete(n, key).node)
  {
    var after := Delete(n, key).node;
    DeleteCanonical(n, key);
    DeleteRefines(n, key);
    forall path ensures CleanLookup(Find(after, path)) {
      CleanFinds(n, path);
    }
    FindsClean(after);
  }

  lemma InsertKeepsClean(n: Node, key: Path, value: Bytes)
    requires Canonical(n) && Clean(n) && Insert(n, key, value).Done?
    ensures Clean(Insert(n, key, value).node)
  {
    var after := Insert(n, key, value).node;
    InsertCanonical(n, key, value);
    InsertRefines(n, key, value);
    forall path ensures CleanLookup(Find(after, path)) {
      CleanFinds(n, path);
    }
    FindsClean(after);
  }

  lemma {:induction false} RunKeepsClean(n: Node, ops: seq<Op>)
    requires Canonical(n) && Clean(n) && Run(n, ops).Some?
    ensures Clean(Run(n, ops).value)
    decreases |ops|
  {
    if ops != [] {
      match ops[0] {
        case Put(key, value) => InsertKeepsClean(n, key, value);
        case Remove(key) => DeleteKeepsClean(n, key);
      }
      ApplyRefines(n, ops[0]);
      RunKeepsClean(Apply(n, ops[0]).node, ops[1..]);
    }
  }
}
