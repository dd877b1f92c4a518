/** Tries whose root hash does not survive pruning and reloading: a node with a short encoding is cut away. */
module ShortNodes {
  import opened Primitives
  import opened Rlp
  import opened Nibbles
  import opened Trie
  import opened TrieHistory
  import opened NodeCodec
  import opened Touched
  import opened Pruning

  function SmallLeaf(): Node {
    Leaf([], [1])
  }

  function SmallBranch(): Node {
    Fork([], 0, SmallLeaf(), 1, SmallLeaf())
  }

  /** Two entries whose keys part in the last nibble. */
  function ShortTrie(path: Path): Node {
    Extension(path, SmallBranch())
  }

  lemma {:induction false} EmptyLengths(n: nat)
    ensures SumRefLengths(seq(n, _ => Null)) == n
  {
    if n > 0 {
      EmptyLengths(n - 1);
      assert seq(n, _ => Null)[1..] == seq(n - 1, _ => Null);
    }
  }

  lemma ForkLength(left: Node, right: Node)
    requires !left.Null? && !right.Null?
    ensures PayloadLength(Fork([], 0, left, 1, right)) == RefLength(left) + RefLength(right) + 15
    ensures Length(Fork([], 0, left, 1, right)) == |Encode(Fork([], 0, left, 1, right))|
  {
    var rest: seq<Node> := seq(14, _ => Null);
    EmptyLengths(14);
    assert EmptySlots()[0 := left][1 := right] == [left, right] + rest;
    assert ([left, right] + rest)[1..] == [right] + rest;
    assert SumRefLengths([right] + rest) == RefLength(right) + SumRefLengths(rest) by {
      assert ([right] + rest)[1..] == rest;
    }
    LengthExact(Fork([], 0, left, 1, right));
  }

  lemma SmallLengths()
    ensures |Encode(SmallLeaf())| == 3 && |Encode(SmallBranch())| == 22
  {
    LengthExact(SmallLeaf());
    ForkLength(SmallLeaf(), SmallLeaf());
  }

  lemma ByteLength(length: nat)
    requires length < 256
    ensures LengthOfLength(length) == if length < 56 then 1 else 2
  {
    if length >= 56 {
      assert BigEndian(length) == BigEndian(length / 256) + [length % 256] && BigEndian(0) == [];
    }
  }

  lemma ForkOfTwo(left: Node, right: Node)
    requires Canonical(left) && Canonical(right) && Clean(left) && Clean(right) && !left.Null? && !right.Null?
    ensures Canonical(Fork([], 0, left, 1, right)) && Clean(Fork([], 0, left, 1, right))
  {
    var children := EmptySlots()[0 := left][1 := right];
    assert !children[0].Null? && !children[1].Null?;
  }

  /** A short node that is cut away is a stub after pruning, and a mere hash after reloading. */
  lemma PrunedShort(short: Node, leaf: Node, marks: set<Reference>)
    requires Ref(short).RefBytes? && Ref(short) !in marks && !short.Leaf? && !short.Null?
    requires leaf.Leaf? && Ref(Fork([], 0, short, 1, leaf)) in marks
    ensures !Clean(Prune(Fork([], 0, short, 1, leaf), marks))
    ensures Reload(Prune(Fork([], 0, short, 1, leaf), marks))
      == Fork([], 0, Digest(KECCAK(Ref(short).bytes), None), 1, leaf)
  {
    var keep := KeepMarked(marks);
    CutFork(0, short, 1, leaf, keep);
    assert Cut(short, keep) == Stub(short) && Cut(leaf, keep) == leaf;
    ReloadFork(0, Stub(short), 1, leaf);
    StubNotClean(short, leaf);
  }

  lemma StubNotClean(short: Node, leaf: Node)
    requires Ref(short).RefBytes?
    ensures !Clean(Fork([], 0, Stub(short), 1, leaf))
  {
    var children := EmptySlots()[0 := Stub(short)][1 := leaf];
    assert !Clean(children[0]);
  }

  lemma HashIsLonger(short: Node, digest: Node, leaf: Node)
    requires Ref(short).RefBytes? && !short.Null? && |Ref(short).bytes| < 32 && Ref(digest).RefDigest? && leaf.Leaf?
    ensures |Encode(Fork([], 0, short, 1, leaf))| < |Encode(Fork([], 0, digest, 1, leaf))|
  {
    ForkLength(short, leaf);
    ForkLength(digest, leaf);
    ByteLength(PayloadLength(Fork([], 0, short, 1, leaf)));
    ByteLength(PayloadLength(Fork([], 0, digest, 1, leaf)));
  }

  /**
   * A root is kept and a short node below it is cut away. The root hash stays right while the
   * reference caches live (PruneKeepsRoot), but what is written out has another encoding.
   */
  lemma ShortNodeLost(short: Node, leaf: Node)
    requires Ref(short).RefBytes? && (short.Branch? || short.Extension?)
    requires leaf.Leaf? && Ref(Fork([], 0, short, 1, leaf)) != Ref(short)
    ensures var n := Fork([], 0, short, 1, leaf); var pruned := Prune(n, {Ref(n)});
      !Clean(pruned) && Encode(Reload(pruned)) != Encode(n)
  {
    PrunedShort(short, leaf, {Ref(Fork([], 0, short, 1, leaf))});
    HashIsLonger(short, Digest(KECCAK(Ref(short).bytes), None), leaf);
  }

  // A trie of hashed keys for which that happens.

  lemma ExtensionLength(path: Path, child: Node)
    requires |path| == 63 && RefLength(child) <= 33
    ensures |Encode(Extension(path, child))|
      == 33 + RefLength(child) + if RefLength(child) < 23 then 1 else 2
  {
    LengthExact(Extension(path, child));
    assert StringLength(EncodedPath(path, false)) == 33;
    ByteLength(33 + RefLength(child));
  }

  lemma PrunedBehind(path: Path, child: Node, marks: set<Reference>)
    requires !child.Leaf? && !child.Null? && Ref(child).RefBytes? && Ref(child) !in marks
    requires Ref(Extension(path, child)) in marks
    ensures Reload(Prune(Extension(path, child), marks)) == Extension(path, Digest(KECCAK(Ref(child).bytes), None))
  {
    assert Cut(child, KeepMarked(marks)) == Stub(child);
  }

  lemma ShortBehindLost(path: Path, child: Node)
    requires |path| == 63 && Ref(child).RefBytes? && |Ref(child).bytes| == 22 && (child.Branch? || child.Extension?)
    ensures var n := Extension(path, child); Encode(Reload(Prune(n, {Ref(n)}))) != Encode(n)
  {
    var n := Extension(path, child);
    ExtensionLength(path, child);
    assert Ref(n).RefDigest?;
    PrunedBehind(path, child, {Ref(n)});
    ExtensionLength(path, Digest(KECCAK(Ref(child).bytes), None));
  }

  lemma SplitAtLast(path: Path)
    ensures Insert(Leaf(path + [0], [1]), path + [1], [1]) == Done(Fork(path, 0, SmallLeaf(), 1, SmallLeaf()), true)
  {
    var a, b := path + [0], path + [1];
    assert a[..|path|] == path == b[..|path|];
    LcpUnique(a, b, |path|);
    assert a[|path| + 1..] == [] && b[|path| + 1..] == [];
  }

  /** Two insertions of 32-byte keys build the trie. */
  lemma ShortTrieBuilt(path: Path)
    requires |path| == 63
    ensures Canonical(ShortTrie(path)) && Clean(ShortTrie(path))
    ensures Run(Null, [Put(path + [0], [1]), Put(path + [1], [1])]) == Some(ShortTrie(path))
  {
    var first, second := Put(path + [0], [1]), Put(path + [1], [1]);
    SplitAtLast(path);
    ForkOfTwo(SmallLeaf(), SmallLeaf());
    RunOfTwo(Null, first, second, Leaf(path + [0], [1]), ShortTrie(path));
  }

  lemma RunOfTwo(n: Node, first: Op, second: Op, middle: Node, end: Node)
    requires Canonical(n) && Canonical(middle) && Canonical(end)
    requires Apply(n, first) == Done(middle, true) && Apply(middle, second) == Done(end, true)
    ensures Run(n, [first, second]) == Some(end)
  {
    assert [first, second][1..] == [second] && [second][1..] == [];
    assert Run(end, []) == Some(end);
    assert Run(middle, [second]) == Some(end);
  }

  /** Cutting its short branch away is not seen in its hash, but in what is written out. */
  lemma ShortTrieStale(path: Path)
    requires |path| == 63
    ensures var n := ShortTrie(path);
      Canonical(n) && Clean(n) && Encode(Reload(Prune(n, {Ref(n)}))) != Encode(n)
  {
    ShortTrieBuilt(path);
    SmallLengths();
    ShortBehindLost(path, SmallBranch());
  }

  /** Pruning it to the lookup of a key that leaves the path of the extension cuts the short branch away. */
  lemma ShortTrieLosesNode(path: Path, key: Path)
    requires |path| == 63 && |key| == 64 && !(path <= key)
    ensures var n := ShortTrie(path);
      && Canonical(n) && Clean(n)
      && Run(Null, [Put(path + [0], [1]), Put(path + [1], [1])]) == Some(n)
      && Collect(n, [Look(key)]) == Some({Ref(n)})
      && Encode(Reload(Prune(n, {Ref(n)}))) != Encode(n)
  {
    ShortTrieBuilt(path);
    LookOnly(ShortTrie(path), key);
    ShortTrieStale(path);
  }

  lemma LookOnly(n: Node, key: Path)
    requires n.Extension? && !(n.path <= key)
    ensures Collect(n, [Look(key)]) == Some({Ref(n)})
  {
    assert [Look(key)][1..] == [];
    assert Collect(n, []) == Some({});
    assert PathRefs(n, key) + {} == {Ref(n)};
  }
}
