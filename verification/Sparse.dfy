/**
 * When a sparse trie can stand for a fuller one under updates.
 *
 * Deleting a key can leave a branch with one child, and that child is then merged with what is
 * above it. If the sparse trie only has the child's hash, it treats the child as a branch; this
 * is right only if the child is a branch. So the sparse trie must not come to that point: some
 * other child of the branch must hold an entry that is never deleted.
 */
module Sparse {
  import opened Primitives
  import opened Nibbles
  import opened Trie
  import opened TrieMap
  import opened TrieForm
  import opened TrieHistory
  import opened NodeCodec

  /** The keys that start with a prefix, without it. */
  ghost function Below(keys: iset<Path>, prefix: Path): iset<Path> {
    iset key | prefix + key in keys
  }

  /** The trie holds something that deleting `deletable` keys cannot remove. */
  ghost predicate Alive(n: Node, deletable: iset<Path>) {
    exists key :: Lasting(Find(n, key), key, deletable)
  }

  ghost predicate Lasting(found: Lookup, key: Path, deletable: iset<Path>) {
    found != Missing && (found.Found? ==> key !in deletable)
  }

  /** The sparse child is a hash where the full child is merged differently from a branch. */
  predicate Brittle(sparse: Node, full: Node) {
    sparse.Digest? && (full.Leaf? || full.Extension?)
  }

  ghost predicate AnotherAlive(children: seq<Node>, i: nat, deletable: iset<Path>) {
    exists j: Nibble :: j < |children| && j != i && Alive(children[j], Below(deletable, [j]))
  }

  /** `sparse` stands for `full` as long as no other keys than `deletable` are deleted. */
  ghost predicate Stands(sparse: Node, full: Node, deletable: iset<Path>) {
    match sparse
    case Null => full.Null?
    case Leaf(_, _) => full == sparse
    case Digest(_, _) => Ref(full) == Ref(sparse) && !full.Null?
    case Extension(path, child) =>
      full.Extension? && full.path == path && Stands(child, full.child, Below(deletable, path))
    case Branch(children) =>
      && full.Branch? && |children| == 16 && |full.children| == 16
      && (forall i :: 0 <= i < 16 ==> Stands(children[i], full.children[i], Below(deletable, [i])))
      && (forall i :: 0 <= i < 16 && Brittle(children[i], full.children[i]) ==>
            AnotherAlive(full.children, i, deletable))
  }

  lemma BelowTwice(keys: iset<Path>, first: Path, second: Path)
    ensures Below(Below(keys, first), second) == Below(keys, first + second)
  {
    forall key ensures key in Below(Below(keys, first), second) <==> key in Below(keys, first + second) {
      assert first + (second + key) == (first + second) + key;
    }
  }

  // A trie that stands for another has the same hash, and the same answers where it has any.

  lemma {:induction false} StandsRef(sparse: Node, full: Node, deletable: iset<Path>)
    requires Stands(sparse, full, deletable)
    ensures Ref(sparse) == Ref(full) && Hash(sparse) == Hash(full)
    ensures sparse.Null? <==> full.Null?
  {
    match sparse
    case Branch(children) =>
      forall i | 0 <= i < 16 ensures Ref(children[i]) == Ref(full.children[i]) {
        StandsRef(children[i], full.children[i], Below(deletable, [i]));
      }
      SameCodes(children, full.children);
    case Extension(path, child) => StandsRef(child, full.child, Below(deletable, path));
    case _ =>
  }

  lemma SameCodes(a: seq<Node>, b: seq<Node>)
    requires |a| == |b| && forall i :: 0 <= i < |a| ==> Ref(a[i]) == Ref(b[i])
    ensures ChildCodes(a) == ChildCodes(b)
  {}

  lemma {:induction false} StandsFind(sparse: Node, full: Node, deletable: iset<Path>, key: Path)
    requires Stands(sparse, full, deletable)
    ensures !Find(sparse, key).Blocked? ==> Find(full, key) == Find(sparse, key)
    ensures Find(full, key) == Missing ==> Find(sparse, key) == Missing || Find(sparse, key).Blocked?
  {
    match sparse
    case Branch(children) =>
      if key != [] {
        StandsFind(children[key[0]], full.children[key[0]], Below(deletable, [key[0]]), key[1..]);
      }
    case Extension(path, child) =>
      if path <= key {
        StandsFind(child, full.child, Below(deletable, path), key[|path|..]);
      }
    case _ =>
  }

  // What is alive stays alive.

  lemma AliveAfter(n: Node, op: Op, deletable: iset<Path>)
    requires Canonical(n) && Apply(n, op).Done? && Alive(n, deletable)
    requires op.Remove? ==> op.key in deletable
    requires !Find(n, op.key).Blocked?
    ensures Canonical(Apply(n, op).node) && Alive(Apply(n, op).node, deletable)
  {
    ApplyRefines(n, op);
    var key :| Lasting(Find(n, key), key, deletable);
    assert Lasting(Find(Apply(n, op).node, key), key, deletable);
  }

  lemma UpdatedNotBlocked(n: Node, op: Op)
    requires Canonical(n) && Apply(n, op).Done?
    ensures !Find(n, op.key).Blocked?
  {
    match op
    case Put(key, value) => InsertOutcome(n, key, value);
    case Remove(key) => DeleteOutcome(n, key);
  }

  // Simulation.

  lemma GraftStands(prefix: Path, sparse: Node, full: Node, deletable: iset<Path>)
    requires Stands(sparse, full, Below(deletable, prefix)) && !Brittle(sparse, full)
    requires sparse.Digest? ==> full.Branch? || full.Digest?
    ensures Stands(Graft(prefix, sparse), Graft(prefix, full), deletable)
  {
    match sparse
    case Extension(path, child) =>
      BelowTwice(deletable, prefix, path);
    case _ =>
  }

  lemma {:induction false} StandsCanonical(sparse: Node, full: Node, deletable: iset<Path>)
    requires WellFormed(sparse) && Canonical(full) && Stands(sparse, full, deletable)
    ensures Canonical(sparse)
  {
    match sparse
    case Branch(children) =>
      forall i | 0 <= i < 16 ensures Canonical(children[i]) && (children[i].Null? <==> full.children[i].Null?) {
        StandsCanonical(children[i], full.children[i], Below(deletable, [i]));
        StandsRef(children[i], full.children[i], Below(deletable, [i]));
      }
      var a, b :| 0 <= a < b < 16 && !full.children[a].Null? && !full.children[b].Null?;
      assert !children[a].Null? && !children[b].Null?;
    case Extension(path, child) => StandsCanonical(child, full.child, Below(deletable, path));
    case _ =>
  }

  /** Replacing a child on both sides keeps the relation if nothing alive is lost with it. */
  lemma ReplaceStands(sparse: seq<Node>, full: seq<Node>, deletable: iset<Path>, i: Nibble, s: Node, f: Node)
    requires Stands(Branch(sparse), Branch(full), deletable)
    requires Stands(s, f, Below(deletable, [i])) && !s.Digest?
    requires Alive(full[i], Below(deletable, [i])) ==> Alive(f, Below(deletable, [i]))
    ensures Stands(Branch(sparse[i := s]), Branch(full[i := f]), deletable)
  {
    var sparse', full' := sparse[i := s], full[i := f];
    forall k | 0 <= k < 16 && Brittle(sparse'[k], full'[k])
      ensures AnotherAlive(full', k, deletable)
    {
      assert Brittle(sparse[k], full[k]);
      var j: Nibble :| j < |full| && j != k && Alive(full[j], Below(deletable, [j]));
      assert Alive(full'[j], Below(deletable, [j]));
    }
  }

  lemma {:induction false} InsertedNotDigest(n: Node, key: Path, value: Bytes)
    requires Insert(n, key, value).Changes()
    ensures !Insert(n, key, value).node.Digest?
  {
    match n
    case Leaf(path, _) => assert Lcp(path, key) <= |path|;
    case Extension(path, _) => assert Lcp(path, key) <= |path|;
    case _ =>
  }

  lemma {:induction false} DeletedNotDigest(n: Node, key: Path)
    requires Delete(n, key).Changes()
    ensures !Delete(n, key).node.Digest?
  {
    match n
    case Branch(children) => assert !Collapse(children[key[0] := Delete(children[key[0]], key[1..]).node]).node.Digest?;
    case _ =>
  }

  /** An update that changes something leaves no bare hash. */
  lemma ChangedNotDigest(n: Node, op: Op)
    requires Apply(n, op).Changes()
    ensures !Apply(n, op).node.Digest?
  {
    match op
    case Put(key, value) => InsertedNotDigest(n, key, value);
    case Remove(key) => DeletedNotDigest(n, key);
  }

  /** A child that was updated on both sides. */
  lemma ChangedChildStands(sparse: seq<Node>, full: seq<Node>, deletable: iset<Path>, i: Nibble, op: Op)
    requires Canonical(Branch(full)) && Stands(Branch(sparse), Branch(full), deletable)
    requires op.Remove? ==> op.key in Below(deletable, [i])
    requires Apply(sparse[i], op).Changes() && Apply(full[i], op).Changes()
    requires var s, f := Apply(sparse[i], op).node, Apply(full[i], op).node;
      Stands(s, f, Below(deletable, [i]))
    ensures var s, f := Apply(sparse[i], op).node, Apply(full[i], op).node;
      Stands(Branch(sparse[i := s]), Branch(full[i := f]), deletable)
  {
    ChangedNotDigest(sparse[i], op);
    if Alive(full[i], Below(deletable, [i])) {
      UpdatedNotBlocked(full[i], op);
      AliveAfter(full[i], op, Below(deletable, [i]));
    }
    ReplaceStands(sparse, full, deletable, i, Apply(sparse[i], op).node, Apply(full[i], op).node);
  }

  lemma ForkStands(common: Path, i: Nibble, s: Node, f: Node, j: Nibble, leaf: Node, deletable: iset<Path>)
    requires i != j && leaf.Leaf?
    requires Stands(s, f, Below(deletable, common + [i])) && !Brittle(s, f)
    ensures Stands(Fork(common, i, s, j, leaf), Fork(common, i, f, j, leaf), deletable)
  {
    BelowTwice(deletable, common, [i]);
    assert common == [] ==> Below(deletable, common) == deletable by {
      assert forall key: Path :: [] + key == key;
    }
    var sparse, full := EmptySlots()[i := s][j := leaf], EmptySlots()[i := f][j := leaf];
    assert Stands(Branch(sparse), Branch(full), Below(deletable, common)) by {
      forall k | 0 <= k < 16
        ensures Stands(sparse[k], full[k], Below(Below(deletable, common), [k])) && !Brittle(sparse[k], full[k])
      {}
    }
  }

  /** The same update went through on both sides. */
  ghost predicate Simulated(sparse: Update, full: Update, deletable: iset<Path>) {
    && sparse.Done? && full.Done? && sparse.changed == full.changed
    && Stands(sparse.node, full.node, deletable)
  }

  lemma {:induction false} InsertStands(
      sparse: Node, full: Node, deletable: iset<Path>, key: Path, value: Bytes)
    requires Canonical(full) && Stands(sparse, full, deletable)
    requires Insert(full, key, value).Done? && !Find(sparse, key).Blocked?
    ensures Simulated(Insert(sparse, key, value), Insert(full, key, value), deletable)
    decreases full, 1
  {
    match full
    case Null =>
    case Leaf(path, oldValue) =>
      var at := Lcp(path, key);
      if at < |path| && at < |key| {
        var left := Leaf(path[at + 1..], oldValue);
        ForkStands(path[..at], path[at], left, left, key[at], Leaf(key[at + 1..], value), deletable);
      }
    case Branch(children) => InsertStandsBranch(sparse, full, deletable, key, value);
    case Extension(path, child) => InsertStandsExtension(sparse, full, deletable, key, value);
  }

  lemma {:induction false} InsertStandsBranch(
      sparse: Node, full: Node, deletable: iset<Path>, key: Path, value: Bytes)
    requires Canonical(full) && Stands(sparse, full, deletable)
    requires Insert(full, key, value).Done? && !Find(sparse, key).Blocked? && full.Branch?
    ensures Simulated(Insert(sparse, key, value), Insert(full, key, value), deletable)
    decreases full, 0
  {
    var i := key[0];
    InsertStands(sparse.children[i], full.children[i], Below(deletable, [i]), key[1..], value);
    if Insert(full.children[i], key[1..], value).changed {
      ChangedChildStands(sparse.children, full.children, deletable, i, Put(key[1..], value));
    }
  }

  lemma {:induction false} InsertStandsExtension(
      sparse: Node, full: Node, deletable: iset<Path>, key: Path, value: Bytes)
    requires Canonical(full) && Stands(sparse, full, deletable)
    requires Insert(full, key, value).Done? && !Find(sparse, key).Blocked? && full.Extension?
    ensures Simulated(Insert(sparse, key, value), Insert(full, key, value), deletable)
    decreases full, 0
  {
    var path := full.path;
    if Lcp(path, key) == |path| {
      InsertStands(sparse.child, full.child, Below(deletable, path), key[|path|..], value);
    } else {
      InsertForkStands(sparse.child, full.child, path, deletable, key, value);
    }
  }

  lemma InsertForkStands(s: Node, f: Node, path: Path, deletable: iset<Path>, key: Path, value: Bytes)
    requires Canonical(Extension(path, f))
    requires Stands(s, f, Below(deletable, path))
    requires Lcp(path, key) < |path| && Lcp(path, key) < |key|
    ensures var sparse, full := Insert(Extension(path, s), key, value), Insert(Extension(path, f), key, value);
      && sparse.Changes() && full.Changes()
      && Stands(sparse.node, full.node, deletable)
  {
    var at := Lcp(path, key);
    var front, rest := path[..at] + [path[at]], path[at + 1..];
    assert path == front + rest;
    BelowTwice(deletable, front, rest);
    var leaf := Leaf(key[at + 1..], value);
    if rest == [] {
      assert path == front;
      ForkStands(path[..at], path[at], s, f, key[at], leaf, deletable);
    } else {
      ForkStands(path[..at], path[at], Extension(rest, s), Extension(rest, f), key[at], leaf, deletable);
    }
  }

  lemma SameFirst(a: seq<Node>, b: seq<Node>, i: nat)
    requires |a| == |b| && i <= |a| && forall j :: 0 <= j < |a| ==> (a[j].Null? <==> b[j].Null?)
    ensures FirstChild(a, i) == FirstChild(b, i)
  {
    var x, y := FirstChild(a, i), FirstChild(b, i);
    assert x < |a| ==> !b[x].Null?;
    assert y < |b| ==> !a[y].Null?;
  }

  lemma CollapseStands(sparse: seq<Node>, full: seq<Node>, deletable: iset<Path>)
    requires Stands(Branch(sparse), Branch(full), deletable)
    requires |sparse| == 16 && |full| == 16 && Collapse(full).Done?
    ensures Simulated(Collapse(sparse), Collapse(full), deletable)
  {
    forall j | 0 <= j < 16 ensures sparse[j].Null? <==> full[j].Null? {
      StandsRef(sparse[j], full[j], Below(deletable, [j]));
    }
    var first := FirstChild(full, 0);
    SameFirst(sparse, full, 0);
    SameFirst(sparse, full, first + 1);
    if FirstChild(full, first + 1) == 16 {
      assert !AnotherAlive(full, first, deletable) by {
        forall j: Nibble | j < 16 && j != first ensures !Alive(full[j], Below(deletable, [j])) {
          assert full[j].Null?;
        }
      }
      GraftStands([first], sparse[first], full[first], deletable);
    }
  }

  lemma {:induction false} DeleteStands(sparse: Node, full: Node, deletable: iset<Path>, key: Path)
    requires Canonical(full) && Stands(sparse, full, deletable)
    requires key in deletable
    requires Delete(full, key).Done? && !Find(sparse, key).Blocked?
    ensures Simulated(Delete(sparse, key), Delete(full, key), deletable)
    decreases full, 1
  {
    match full
    case Branch(_) => DeleteStandsBranch(sparse, full, deletable, key);
    case Extension(_, _) => DeleteStandsExtension(sparse, full, deletable, key);
    case _ =>
  }

  lemma {:induction false} DeleteStandsBranch(sparse: Node, full: Node, deletable: iset<Path>, key: Path)
    requires Canonical(full) && Stands(sparse, full, deletable)
    requires key in deletable && full.Branch?
    requires Delete(full, key).Done? && !Find(sparse, key).Blocked?
    ensures Simulated(Delete(sparse, key), Delete(full, key), deletable)
    decreases full, 0
  {
    var i := key[0];
    assert key == [i] + key[1..];
    DeleteStands(sparse.children[i], full.children[i], Below(deletable, [i]), key[1..]);
    if Delete(full.children[i], key[1..]).changed {
      ChangedChildStands(sparse.children, full.children, deletable, i, Remove(key[1..]));
      CollapseStands(sparse.children[i := Delete(sparse.children[i], key[1..]).node],
                     full.children[i := Delete(full.children[i], key[1..]).node], deletable);
    }
  }

  lemma {:induction false} DeleteStandsExtension(sparse: Node, full: Node, deletable: iset<Path>, key: Path)
    requires Canonical(full) && Stands(sparse, full, deletable)
    requires key in deletable && full.Extension?
    requires Delete(full, key).Done? && !Find(sparse, key).Blocked?
    ensures Simulated(Delete(sparse, key), Delete(full, key), deletable)
    decreases full, 0
  {
    var path := full.path;
    if path <= key {
      SplitKey(path, key);
      DeleteStands(sparse.child, full.child, Below(deletable, path), key[|path|..]);
      var s, f := Delete(sparse.child, key[|path|..]), Delete(full.child, key[|path|..]);
      if f.changed {
        ChangedNotDigest(sparse.child, Remove(key[|path|..]));
        GraftStands(path, s.node, f.node, deletable);
      }
    }
  }

  /** One update keeps the relation. */
  lemma ApplyStands(sparse: Node, full: Node, deletable: iset<Path>, op: Op)
    requires Canonical(full) && Stands(sparse, full, deletable)
    requires op.Remove? ==> op.key in deletable
    requires Apply(full, op).Done? && !Find(sparse, op.key).Blocked?
    ensures Simulated(Apply(sparse, op), Apply(full, op), deletable)
  {
    match op
    case Put(key, value) => InsertStands(sparse, full, deletable, key, value);
    case Remove(key) => DeleteStands(sparse, full, deletable, key);
  }

  lemma StaysResolved(n: Node, op: Op, key: Path)
    requires Canonical(n) && Apply(n, op).Done? && !Find(n, key).Blocked?
    ensures !Find(Apply(n, op).node, key).Blocked?
  {
    ApplyRefines(n, op);
  }

  /**
   * Whole runs: on a trie that stands for a fuller one and has the paths of all the keys, every
   * run of insertions, and of deletions of deletable keys, that the fuller trie can apply in
   * that order goes through, and the root hashes agree at the end.
   */
  lemma {:induction false} RunStands(sparse: Node, full: Node, deletable: iset<Path>, ops: seq<Op>)
    requires Canonical(sparse) && Canonical(full) && Stands(sparse, full, deletable)
    requires forall i :: 0 <= i < |ops| ==> !Find(sparse, ops[i].key).Blocked?
    requires forall i :: 0 <= i < |ops| && ops[i].Remove? ==> ops[i].key in deletable
    requires Run(full, ops).Some?
    ensures Run(sparse, ops).Some?
    ensures Stands(Run(sparse, ops).value, Run(full, ops).value, deletable)
    ensures Hash(Run(sparse, ops).value) == Hash(Run(full, ops).value)
    decreases |ops|
  {
    if ops == [] {
      StandsRef(sparse, full, deletable);
    } else {
      ApplyStands(sparse, full, deletable, ops[0]);
      ApplyRefines(sparse, ops[0]);
      ApplyRefines(full, ops[0]);
      var rest := ops[1..];
      forall i | 0 <= i < |rest| ensures !Find(Apply(sparse, ops[0]).node, rest[i].key).Blocked? {
        StaysResolved(sparse, ops[0], ops[i + 1].key);
      }
      RunStands(Apply(sparse, ops[0]).node, Apply(full, ops[0]).node, deletable, rest);
    }
  }
}
