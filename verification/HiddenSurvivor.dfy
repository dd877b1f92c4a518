/**
 * Deleting from a trie with hidden parts: the root hash comes out right exactly when the node that
 * takes the place of its branch is not a hidden leaf or extension.
 */
module HiddenSurvivor {
  import opened Primitives
  import opened Nibbles
  import opened Rlp
  import opened Trie
  import opened TrieMap
  import opened TrieForm
  import opened TrieHistory
  import opened NodeCodec
  import opened NodeRoundTrip
  import opened Binding
  import opened Sparse
  import opened Touched
  import opened Pruning
  import opened Orphans

  /** The deletion merges a branch with a leaf or extension that is not kept. */
  predicate HidesSurvivor(n: Node, keep: Node -> bool, key: Path) {
    var survivor := Survivor(n, key);
    survivor.Some? && Merges(survivor.value) && !keep(survivor.value)
  }

  /** If the path of a present key is kept, its deletion goes through. */
  lemma CutDeletes(n: Node, keep: Node -> bool, key: Path)
    requires Canonical(n) && Clean(n) && Delete(n, key).Changes() && !Find(Cut(n, keep), key).Blocked?
    ensures Delete(Cut(n, keep), key).Changes()
    ensures Canonical(Cut(n, keep)) && Canonical(Delete(Cut(n, keep), key).node)
  {
    var cut := Cut(n, keep);
    DeleteRefines(n, key);
    NothingNeeded(n, iset{});
    CutStands(n, keep, iset{}, iset{}, iset{});
    StandsFind(cut, n, iset{}, key);
    CutCanonical(n, keep);
    PrefixFree(cut, key);
    DeleteOutcome(cut, key);
    DeleteRefines(cut, key);
    DeleteCanonical(cut, key);
  }

  // What is right.

  /** Without a hidden survivor the cut trie stands for the whole one under the deletion. */
  lemma {:induction false} VisibleStands(n: Node, keep: Node -> bool, key: Path)
    requires Canonical(n) && Clean(n) && Delete(n, key).Changes() && !Find(Cut(n, keep), key).Blocked?
    requires !HidesSurvivor(n, keep, key)
    ensures Stands(Cut(n, keep), n, iset{key})
  {
    match n
    case Branch(children) =>
      SurvivorOnPath(children, key);
      VisibleStands(children[key[0]], keep, key[1..]);
      forall j: Nibble
        ensures Stands(Cut(children[j], keep), children[j], Below(iset{key}, [j]))
        ensures Brittle(Cut(children[j], keep), children[j]) ==> AnotherAlive(children, j, iset{key})
      {
        BelowOne(key, [j]);
        if j != key[0] {
          BesideVisible(children, keep, key, j);
        }
      }
    case Extension(path, child) =>
      BelowOne(key, path);
      VisibleStands(child, keep, key[|path|..]);
    case _ =>
  }

  lemma BesideVisible(children: seq<Node>, keep: Node -> bool, key: Path, j: Nibble)
    requires Canonical(Branch(children)) && Clean(Branch(children)) && Delete(Branch(children), key).Changes()
    requires !HidesSurvivor(Branch(children), keep, key) && j != key[0]
    ensures Stands(Cut(children[j], keep), children[j], iset{})
    ensures Brittle(Cut(children[j], keep), children[j]) ==> AnotherAlive(children, j, iset{key})
  {
    NothingNeeded(children[j], iset{});
    CutStands(children[j], keep, iset{}, iset{}, iset{});
    if !children[j].Null? {
      BesideDeleted(children, key, j);
    }
  }

  // What is wrong.

  ghost predicate Separate(a: Node, b: Node) {
    Sized(a) && Sized(b) && Distinguishable(a, b)
  }

  /** A path in front of a hidden leaf or extension is not the path merged with it. */
  lemma GraftDiffers(path: Path, n: Node)
    requires path != [] && Merges(n) && Canonical(n) && Clean(n) && Ref(n).RefDigest?
    requires Separate(Extension(path, Stub(n)), Graft(path, n))
    ensures Ref(Extension(path, Stub(n))) != Ref(Graft(path, n))
  {
    var wrong, right := Extension(path, Stub(n)), Graft(path, n);
    GraftCanonical(path, n);
    if Ref(wrong) == Ref(right) {
      SameSurface(wrong, right);
    }
  }

  lemma BranchesDiffer(a: seq<Node>, b: seq<Node>, i: Nibble)
    requires WellFormed(Branch(a)) && WellFormed(Branch(b)) && Clean(Branch(a)) && Clean(Branch(b))
    requires Separate(Branch(a), Branch(b)) && Ref(a[i]) != Ref(b[i])
    ensures Ref(Branch(a)) != Ref(Branch(b))
  {
    if Ref(Branch(a)) == Ref(Branch(b)) {
      SameSurface(Branch(a), Branch(b));
      SameChildRefs(Branch(a), Branch(b));
    }
  }

  lemma SeparateChildren(a: seq<Node>, b: seq<Node>, i: nat)
    requires Separate(Branch(a), Branch(b)) && i < |a| && i < |b|
    ensures Separate(a[i], b[i])
  {
    ChildEncodings(a, i);
    ChildEncodings(b, i);
    DistinguishableBelow(Branch(a), Branch(b), a[i], b[i]);
  }

  lemma ExtensionsDiffer(path: Path, a: Node, b: Node)
    requires WellFormed(a) && WellFormed(b) && Clean(a) && Clean(b)
    requires Separate(Extension(path, a), Extension(path, b)) && Ref(a) != Ref(b)
    ensures Ref(Extension(path, a)) != Ref(Extension(path, b))
  {
    if Ref(Extension(path, a)) == Ref(Extension(path, b)) {
      SameSurface(Extension(path, a), Extension(path, b));
      SameChildRefs(Extension(path, a), Extension(path, b));
    }
  }

  /** Everything about one deletion from a trie that hides its survivor. */
  ghost predicate HiddenDeletion(n: Node, keep: Node -> bool, key: Path) {
    && Canonical(n) && Clean(n) && Clean(Cut(n, keep)) && Delete(n, key).Changes()
    && !Find(Cut(n, keep), key).Blocked? && HidesSurvivor(n, keep, key)
  }

  /** Whether the branch itself is merged by the deletion. */
  predicate MergesHere(children: seq<Node>, key: Path)
    requires |children| == 16 && key != [] && Delete(children[key[0]], key[1..]).Changes()
  {
    Delete(children[key[0]], key[1..]).node.Null?
  }

  /** The branch is merged with its hidden child. */
  lemma MergedResults(children: seq<Node>, keep: Node -> bool, key: Path) returns (j: Nibble)
    requires HiddenDeletion(Branch(children), keep, key) && MergesHere(children, key)
    ensures Survivor(Branch(children), key) == Some(children[j])
    ensures Delete(Branch(children), key) == Done(Graft([j], children[j]), true)
    ensures Delete(Cut(Branch(children), keep), key) == Done(Extension([j], Stub(children[j])), true)
  {
    var cut := CutAll(children, keep);
    assert Cut(Branch(children), keep) == Branch(cut);
    assert Find(Branch(cut), key) == Find(cut[key[0]], key[1..]);
    j := LoneSlot(children, key);
    assert cut[key[0]] == children[key[0]];
    SameFirst(children[key[0] := Null], cut[key[0] := Null], 0);
    SameFirst(children[key[0] := Null], cut[key[0] := Null], j + 1);
    DeleteMerges(children, key, j);
    DeleteMerges(cut, key, j);
  }

  /** The only slot that is left when the branch is merged. */
  lemma LoneSlot(children: seq<Node>, key: Path) returns (j: Nibble)
    requires Canonical(Branch(children)) && Delete(Branch(children), key).Changes() && MergesHere(children, key)
    requires Survivor(Branch(children), key).Some?
    ensures children[key[0]].Leaf? && children[key[0]].path == key[1..]
    ensures Survivor(Branch(children), key) == Some(children[j])
    ensures FirstChild(children[key[0] := Null], 0) == j && FirstChild(children[key[0] := Null], j + 1) == 16
  {
    DeleteCanonical(children[key[0]], key[1..]);
    assert Survivor(children[key[0]], key[1..]) == None;
    j := FirstChild(children[key[0] := Null], 0);
  }

  /** A leaf is deleted, and only child `j` is left. */
  lemma DeleteMerges(children: seq<Node>, key: Path, j: nat)
    requires |children| == 16 && key != [] && children[key[0]].Leaf? && children[key[0]].path == key[1..]
    requires j < 16 && FirstChild(children[key[0] := Null], 0) == j
    requires FirstChild(children[key[0] := Null], j + 1) == 16
    ensures j != key[0] && Delete(Branch(children), key) == Done(Graft([j], children[j]), true)
  {}

  /** The branch stays, and its child on the path is what the deletion leaves there. */
  lemma KeptResults(children: seq<Node>, keep: Node -> bool, key: Path)
    requires HiddenDeletion(Branch(children), keep, key) && !MergesHere(children, key)
    ensures HiddenDeletion(children[key[0]], keep, key[1..])
    ensures Delete(Cut(children[key[0]], keep), key[1..]).Changes()
    ensures Delete(Branch(children), key)
      == Done(Branch(children[key[0] := Delete(children[key[0]], key[1..]).node]), true)
    ensures var cut := CutAll(children, keep);
      Delete(Branch(cut), key) == Done(Branch(cut[key[0] := Delete(cut[key[0]], key[1..]).node]), true)
  {
    var i, rest := key[0], key[1..];
    var cut := CutAll(children, keep);
    SurvivorBelow(children, key);
    CutDeletes(children[i], keep, rest);
    DeleteOfKept(children, key);
    CutCanonical(Branch(children), keep);
    NotEmptied(children[i], keep, rest);
    DeleteOfKept(cut, key);
  }

  lemma DeleteOfKept(children: seq<Node>, key: Path)
    requires Canonical(Branch(children)) && key != [] && Delete(children[key[0]], key[1..]).Changes()
    requires !Delete(children[key[0]], key[1..]).node.Null?
    ensures Delete(Branch(children), key)
      == Done(Branch(children[key[0] := Delete(children[key[0]], key[1..]).node]), true)
  {
    var i := key[0];
    var after := children[i := Delete(children[i], key[1..]).node];
    var j := AnotherChild(children, i);
    assert !after[i].Null? && !after[j].Null?;
    var first := FirstChild(after, 0);
    assert FirstChild(after, first + 1) < 16;
  }

  lemma NotEmptied(n: Node, keep: Node -> bool, key: Path)
    requires Canonical(n) && Clean(n) && Delete(n, key).Changes() && !Find(Cut(n, keep), key).Blocked?
    requires !Delete(n, key).node.Null?
    ensures Delete(Cut(n, keep), key).Changes() && !Delete(Cut(n, keep), key).node.Null?
  {
    CutDeletes(n, keep, key);
    CutCanonical(n, keep);
    DeleteCanonical(n, key);
    DeleteCanonical(Cut(n, keep), key);
  }

  /** What is left by the deletion from the cut trie and from the whole one. */
  ghost predicate Results(n: Node, keep: Node -> bool, key: Path, a: Node, b: Node) {
    Delete(Cut(n, keep), key) == Done(a, true) && Delete(n, key) == Done(b, true)
  }

  lemma ResultsShaped(n: Node, keep: Node -> bool, key: Path, a: Node, b: Node)
    requires HiddenDeletion(n, keep, key) && Results(n, keep, key, a, b)
    ensures Canonical(a) && Clean(a) && !a.Digest? && Canonical(b) && Clean(b) && !b.Digest?
  {
    DeleteKeepsClean(n, key);
    CutDeletes(n, keep, key);
    DeleteCanonical(n, key);
    DeleteKeepsClean(Cut(n, keep), key);
    DeleteCanonical(Cut(n, keep), key);
  }

  /** With a hidden survivor the results have different references. */
  lemma {:induction false} HiddenDiffers(n: Node, keep: Node -> bool, key: Path, a: Node, b: Node)
    requires HiddenDeletion(n, keep, key) && Results(n, keep, key, a, b) && Separate(a, b)
    ensures Ref(a) != Ref(b)
    decreases n, 1
  {
    ResultsShaped(n, keep, key, a, b);
    match n
    case Branch(children) =>
      if MergesHere(children, key) {
        MergedDiffers(children, keep, key, a, b);
      } else {
        KeptDiffers(children, keep, key, a, b);
      }
    case Extension(path, child) => BehindDiffers(path, child, keep, key, a, b);
    case _ =>
  }

  lemma MergedDiffers(children: seq<Node>, keep: Node -> bool, key: Path, a: Node, b: Node)
    requires HiddenDeletion(Branch(children), keep, key) && MergesHere(children, key)
    requires Results(Branch(children), keep, key, a, b) && Separate(a, b)
    ensures Ref(a) != Ref(b)
  {
    var j := MergedResults(children, keep, key);
    HiddenChild(children, keep, j);
    GraftDiffers([j], children[j]);
  }

  /** The merged branch is behind an extension. */
  lemma MergedBehindDiffers(
      children: seq<Node>, keep: Node -> bool, key: Path, path: Path, s: Node, f: Node, a: Node, b: Node)
    requires HiddenDeletion(Branch(children), keep, key) && MergesHere(children, key)
    requires Results(Branch(children), keep, key, s, f) && a == Graft(path, s) && b == Graft(path, f)
    requires Separate(a, b)
    ensures Ref(a) != Ref(b)
  {
    var j := MergedResults(children, keep, key);
    HiddenChild(children, keep, j);
    LongerGrafts(path, j, children[j], a, b);
  }

  lemma LongerGrafts(path: Path, j: Nibble, n: Node, a: Node, b: Node)
    requires Merges(n) && Canonical(n) && Clean(n) && Ref(n).RefDigest?
    requires a == Extension(path + [j], Stub(n)) && b == Graft(path, Graft([j], n)) && Separate(a, b)
    ensures Ref(a) != Ref(b)
  {
    GraftTwice(path, [j], n);
    GraftDiffers(path + [j], n);
  }

  lemma HiddenChild(children: seq<Node>, keep: Node -> bool, j: Nibble)
    requires Canonical(Branch(children)) && Clean(Branch(children)) && keep(Branch(children))
    requires Clean(Cut(Branch(children), keep)) && Merges(children[j]) && !keep(children[j])
    ensures Ref(children[j]).RefDigest? && Stub(children[j]) == Digest(Ref(children[j]).digest, None)
  {
    var cut := CutAll(children, keep);
    assert Cut(Branch(children), keep) == Branch(cut);
    assert Clean(cut[j]) && cut[j] == Stub(children[j]);
  }

  lemma {:induction false} KeptDiffers(children: seq<Node>, keep: Node -> bool, key: Path, a: Node, b: Node)
    requires HiddenDeletion(Branch(children), keep, key) && !MergesHere(children, key)
    requires Results(Branch(children), keep, key, a, b) && Separate(a, b)
    requires Canonical(a) && Clean(a) && Canonical(b) && Clean(b)
    ensures a.Branch? && b.Branch? && Ref(a) != Ref(b)
    decreases Branch(children), 0
  {
    KeptBranch(children, keep, key, a, b);
    var i := key[0];
    SeparateChildren(a.children, b.children, i);
    HiddenDiffers(children[i], keep, key[1..], a.children[i], b.children[i]);
    BranchesDiffer(a.children, b.children, i);
  }

  lemma KeptBranch(children: seq<Node>, keep: Node -> bool, key: Path, a: Node, b: Node)
    requires HiddenDeletion(Branch(children), keep, key) && !MergesHere(children, key)
    requires Results(Branch(children), keep, key, a, b)
    ensures a.Branch? && b.Branch? && |a.children| == |b.children| == 16
    ensures HiddenDeletion(children[key[0]], keep, key[1..])
    ensures Results(children[key[0]], keep, key[1..], a.children[key[0]], b.children[key[0]])
  {
    KeptResults(children, keep, key);
    assert Cut(Branch(children), keep) == Branch(CutAll(children, keep));
  }

  lemma {:induction false} BehindDiffers(path: Path, child: Node, keep: Node -> bool, key: Path, a: Node, b: Node)
    requires HiddenDeletion(Extension(path, child), keep, key)
    requires Results(Extension(path, child), keep, key, a, b) && Separate(a, b)
    requires Canonical(a) && Clean(a) && Canonical(b) && Clean(b)
    ensures Ref(a) != Ref(b)
    decreases Extension(path, child), 0
  {
    var tail := key[|path|..];
    BehindHidden(path, child, keep, key);
    if MergesHere(child.children, tail) {
      MergedBehindDiffers(child.children, keep, tail, path,
                          Delete(Cut(child, keep), tail).node, Delete(child, tail).node, a, b);
    } else {
      var s, f := KeptBehind(path, child, keep, key, a, b);
      KeptDiffers(child.children, keep, tail, s, f);
      ExtensionsDiffer(path, s, f);
    }
  }

  lemma KeptBehind(path: Path, child: Node, keep: Node -> bool, key: Path, a: Node, b: Node)
    returns (s: Node, f: Node)
    requires path <= key && child.Branch? && HiddenDeletion(child, keep, key[|path|..])
    requires !MergesHere(child.children, key[|path|..])
    requires keep(Extension(path, child)) && Separate(a, b)
    requires Results(Extension(path, child), keep, key, a, b)
    ensures a == Extension(path, s) && b == Extension(path, f)
    ensures Results(child, keep, key[|path|..], s, f) && Separate(s, f)
  {
    var tail := key[|path|..];
    KeptResults(child.children, keep, tail);
    s, f := Delete(Cut(child, keep), tail).node, Delete(child, tail).node;
    DistinguishableBelow(a, b, s, f);
  }

  lemma BehindHidden(path: Path, child: Node, keep: Node -> bool, key: Path)
    requires HiddenDeletion(Extension(path, child), keep, key)
    ensures path <= key && child.Branch? && HiddenDeletion(child, keep, key[|path|..])
    ensures keep(Extension(path, child))
    ensures Delete(Cut(child, keep), key[|path|..]).Changes()
    ensures Cut(Extension(path, child), keep) == Extension(path, Cut(child, keep))
  {
    CutDeletes(child, keep, key[|path|..]);
  }

  // The whole trie.

  /**
   * A present key is deleted from a trie of which some parts are hidden behind their hashes, but
   * not the path of the key. The deletion goes through, and it gives the root hash of the deletion
   * from the whole trie exactly when the survivor, if there is one, is a branch or not hidden.
   */
  lemma HiddenSurvivorIff(n: Node, keep: Node -> bool, key: Path)
    requires Canonical(n) && Clean(n) && !CutsShort(n, keep)
    requires Delete(n, key).Changes() && !Find(Cut(n, keep), key).Blocked?
    requires var update := Delete(Cut(n, keep), key); update.Done? ==> Separate(update.node, Delete(n, key).node)
    ensures Hash(Cut(n, keep)) == Hash(n)
    ensures Delete(Cut(n, keep), key).Changes()
    ensures Hash(Delete(Cut(n, keep), key).node) == Hash(Delete(n, key).node) <==> !HidesSurvivor(n, keep, key)
  {
    CutKeepsRef(n, keep);
    CutClean(n, keep);
    CutDeletes(n, keep, key);
    var a, b := Delete(Cut(n, keep), key).node, Delete(n, key).node;
    if HidesSurvivor(n, keep, key) {
      ResultsShaped(n, keep, key, a, b);
      HiddenDiffers(n, keep, key, a, b);
      if Hash(a) == Hash(b) {
        SameHash(a, b);
      }
    } else {
      VisibleStands(n, keep, key);
      DeleteStands(Cut(n, keep), n, iset{key}, key);
      StandsRef(a, b, iset{key});
    }
  }

  // Tries for which it is wrong.

  lemma DeleteFromFork(i: Nibble, left: Node, j: Nibble, right: Node)
    requires i != j && left.Leaf? && !right.Null?
    ensures Delete(Fork([], i, left, j, right), [i] + left.path) == Done(Graft([j], right), true)
  {
    var after := EmptySlots()[i := left][j := right][i := Null];
    forall m: Nibble | m != j ensures after[m] == Null {}
    assert after[j] == right;
    assert FirstChild(after, 0) == j;
    assert FirstChild(after, j + 1) == 16;
    assert ([i] + left.path)[1..] == left.path;
    DeleteMerges(EmptySlots()[i := left][j := right], [i] + left.path, j);
  }

  lemma LongPathLongCode(leaf: Node)
    requires leaf.Leaf? && 63 <= |leaf.path| <= 64 && |leaf.value| < 0x1_0000_0000
    ensures 32 < |Encode(leaf)| < LENGTH_LIMIT
  {
    var prefix, payload := EncodedPath(leaf.path, true), PayloadLength(leaf);
    LengthExact(leaf);
    assert StringLength(prefix) == |prefix| + 1;
    LengthDigits(|leaf.value|);
    LengthDigits(payload);
  }

  lemma ForkClean(i: Nibble, left: Node, j: Nibble, right: Node)
    requires i != j && Clean(left) && Clean(right)
    ensures Clean(Fork([], i, left, j, right))
  {}

  /** A leaf is deleted beside a long leaf that is hidden: the deletion goes through, with a wrong result. */
  lemma LeafLost(short: Node, long: Node, keep: Node -> bool)
    requires short.Leaf? && long.Leaf?
    requires |Encode(long)| >= 32 && |Encode(Graft([1], long))| < LENGTH_LIMIT
    requires keep(Fork([], 0, short, 1, long)) && keep(short) && !keep(long)
    ensures var n, key := Fork([], 0, short, 1, long), [0] + short.path;
      && Canonical(n) && Clean(n) && Hash(Cut(n, keep)) == Hash(n)
      && var a, b := Delete(Cut(n, keep), key), Delete(n, key);
         a.Changes() && b.Changes() && Encode(a.node) != Encode(b.node)
  {
    ForkCanonical([], 0, short, 1, long);
    ForkClean(0, short, 1, long);
    CutFork(0, short, 1, long, keep);
    DeleteFromFork(0, short, 1, long);
    DeleteFromFork(0, short, 1, Stub(long));
    CutKeepsRef(Fork([], 0, short, 1, long), keep);
    var wrong, right := Graft([1], Stub(long)), Graft([1], long);
    if Encode(wrong) == Encode(right) {
      EncodeInjective(right, wrong);
    }
  }

  lemma TwoInserted(key: Path, other: Path, first: Bytes, value: Bytes)
    requires key != [] && other != [] && key[0] == 0 && other[0] == 1
    ensures Insert(Null, key, first) == Done(Leaf(key, first), true)
    ensures Insert(Leaf(key, first), other, value)
      == Done(Fork([], 0, Leaf(key[1..], first), 1, Leaf(other[1..], value)), true)
  {
    LcpUnique(key, other, 0);
  }

  /** Everything but one node is kept. */
  function Hide(hidden: Node): Node -> bool {
    (n: Node) => n != hidden
  }

  /** Two 32-byte keys are inserted; one is deleted while the leaf of the other one is hidden. */
  lemma HiddenLeafLost(key: B256, other: B256, first: Bytes, value: Bytes)
    requires ToNibs(key)[0] == 0 && ToNibs(other)[0] == 1 && |value| < 0x1_0000_0000
    requires ToNibs(key)[1..] != ToNibs(other)[1..] || first != value
    ensures var n := Insert(Leaf(ToNibs(key), first), ToNibs(other), value).node;
      var cut := Cut(n, Hide(Leaf(ToNibs(other)[1..], value)));
      && Canonical(n) && Clean(n) && Hash(cut) == Hash(n)
      && var a, b := Delete(cut, ToNibs(key)), Delete(n, ToNibs(key));
         a.Changes() && b.Changes() && Encode(a.node) != Encode(b.node)
  {
    var short, long := Leaf(ToNibs(key)[1..], first), Leaf(ToNibs(other)[1..], value);
    TwoInserted(ToNibs(key), ToNibs(other), first, value);
    LongPathLongCode(long);
    LongPathLongCode(Leaf([1] + long.path, value));
    KeptWithout(short, long);
    assert [0] + short.path == ToNibs(key);
    LeafLost(short, long, Hide(long));
  }

  lemma KeptWithout(short: Node, long: Node)
    requires short.Leaf? && long.Leaf? && short != long
    ensures var keep := Hide(long); keep(Fork([], 0, short, 1, long)) && keep(short) && !keep(long)
  {}
}
