/**
 * The references that lookups and deletions report, and what a whole series of them records.
 *
 * The series runs on a trie that its own deletions change. Still, what it records is enough for
 * the trie it started from: nodes that an earlier deletion removed or merged are already recorded.
 */
module Touched {
  import opened Primitives
  import opened Trie
  import opened TrieMap
  import opened TrieForm
  import opened NodeCodec
  import opened Sparse

  /** What looking up a key reports: the nodes on its path. */
  function PathRefs(n: Node, key: Path): set<Reference> {
    match n
    case Null => {Ref(n)}
    case Branch(children) =>
      if key == [] || |children| != 16 || children[key[0]].Null? then {Ref(n)}
      else {Ref(n)} + PathRefs(children[key[0]], key[1..])
    case Leaf(_, _) => {Ref(n)}
    case Extension(path, child) =>
      if path <= key then {Ref(n)} + PathRefs(child, key[|path|..]) else {Ref(n)}
    case Digest(_, _) => {}
  }

  /** What deleting a key reports: the nodes on its path and every node merged on the way back. */
  function DeleteRefs(n: Node, key: Path): set<Reference> {
    match n
    case Null => {}
    case Branch(children) =>
      if key == [] || |children| != 16 then {Ref(n)}
      else
        var below := Delete(children[key[0]], key[1..]);
        {Ref(n)} + DeleteRefs(children[key[0]], key[1..])
        + if below.Changes() then OrphanRef(children[key[0] := below.node]) else {}
    case Leaf(_, _) => {Ref(n)}
    case Extension(path, child) =>
      if path <= key then {Ref(n)} + DeleteRefs(child, key[|path|..]) else {Ref(n)}
    case Digest(_, _) => {}
  }

  /** The only child left, if there is only one. */
  function OrphanRef(children: seq<Node>): set<Reference>
    requires |children| == 16
  {
    var first := FirstChild(children, 0);
    if first < 16 && FirstChild(children, first + 1) == 16 then {Ref(children[first])} else {}
  }

  // Which nodes these are.

  /** `m` lies on the path of the key: it is the trie, or it lies below it where the key leads. */
  predicate OnPath(n: Node, key: Path, m: Node) {
    || n == m
    || match n
       case Branch(children) =>
         && key != [] && |children| == 16 && !children[key[0]].Null?
         && OnPath(children[key[0]], key[1..], m)
       case Extension(path, child) => path <= key && OnPath(child, key[|path|..], m)
       case _ => false
  }

  /** Deleting the key takes away the last neighbour of `m` in a branch. */
  predicate LeftAlone(n: Node, key: Path, m: Node) {
    match n
    case Branch(children) =>
      && key != [] && |children| == 16
      && (LeftAlone(children[key[0]], key[1..], m) || LastNeighbour(children, key[0], key[1..], m))
    case Extension(path, child) => path <= key && LeftAlone(child, key[|path|..], m)
    case _ => false
  }

  /** Slot `i` holds the leaf of the key, and the only other child is `m`. */
  predicate LastNeighbour(children: seq<Node>, i: Nibble, rest: Path, m: Node)
    requires |children| == 16
  {
    && children[i].Leaf? && children[i].path == rest
    && !m.Null? && exists j: Nibble :: children[j] == m && OnlyOther(children, i, j)
  }

  predicate OnlyOther(children: seq<Node>, i: Nibble, j: Nibble)
    requires |children| == 16
  {
    j != i && forall k: Nibble :: k != i && k != j ==> children[k].Null?
  }

  ghost predicate PathRef(n: Node, key: Path, r: Reference) {
    exists m :: OnPath(n, key, m) && !m.Digest? && r == Ref(m)
  }

  ghost predicate DeleteRef(n: Node, key: Path, r: Reference) {
    exists m :: ((OnPath(n, key, m) && !m.Null? && !m.Digest?) || LeftAlone(n, key, m)) && r == Ref(m)
  }

  /** A lookup reports the references of exactly the resolved nodes on the path. */
  lemma {:induction false} PathRefsIff(n: Node, key: Path, r: Reference)
    ensures r in PathRefs(n, key) <==> PathRef(n, key, r)
  {
    match n
    case Branch(children) =>
      if key != [] && |children| == 16 && !children[key[0]].Null? {
        var child, rest := children[key[0]], key[1..];
        PathRefsIff(child, rest, r);
        assert forall m :: OnPath(n, key, m) <==> n == m || OnPath(child, rest, m);
      }
      assert OnPath(n, key, n);
    case Extension(path, child) =>
      if path <= key {
        var rest := key[|path|..];
        PathRefsIff(child, rest, r);
        assert forall m :: OnPath(n, key, m) <==> n == m || OnPath(child, rest, m);
      }
      assert OnPath(n, key, n);
    case _ => assert OnPath(n, key, n);
  }

  /** What is left of a trie after a deletion is empty only if it was the leaf of the key. */
  lemma EmptiedLeaf(n: Node, key: Path)
    requires Canonical(n) && Delete(n, key).Changes()
    ensures Delete(n, key).node.Null? <==> n.Leaf? && n.path == key
  {
    DeleteCanonical(n, key);
    if n.Extension? {
      DeleteCanonical(n.child, key[|n.path|..]);
    }
  }

  lemma OrphanIff(children: seq<Node>, i: Nibble, rest: Path, r: Reference)
    requires Canonical(Branch(children)) && Delete(children[i], rest).Changes()
    ensures r in OrphanRef(children[i := Delete(children[i], rest).node])
      <==> exists m :: LastNeighbour(children, i, rest, m) && r == Ref(m)
  {
    EmptiedLeaf(children[i], rest);
    var after := children[i := Delete(children[i], rest).node];
    var first := FirstChild(after, 0);
    var other := AnotherChild(children, i);
    assert !after[other].Null?;
    var next := FirstChild(after, first + 1);
    if r in OrphanRef(after) {
      assert forall k: Nibble :: k != first ==> after[k].Null?;
      assert first == other && after[i].Null?;
      assert forall k: Nibble :: k != i ==> children[k] == after[k];
      assert OnlyOther(children, i, first);
      assert LastNeighbour(children, i, rest, children[first]);
    }
    if m :| LastNeighbour(children, i, rest, m) && r == Ref(m) {
      var j: Nibble :| children[j] == m && OnlyOther(children, i, j);
      assert after[i].Null? && first == j;
      assert next < 16 ==> next != i && next != j;
    }
  }

  /** A deletion reports those of the path, and of the node that it leaves alone in its branch. */
  lemma {:induction false} DeleteRefsIff(n: Node, key: Path, r: Reference)
    requires Canonical(n) && Delete(n, key).Done?
    ensures r in DeleteRefs(n, key) <==> DeleteRef(n, key, r)
  {
    match n
    case Branch(children) =>
      var i, rest := key[0], key[1..];
      var child := children[i];
      DeleteRefsIff(child, rest, r);
      if Delete(child, rest).Changes() {
        OrphanIff(children, i, rest, r);
      }
      assert forall m: Node :: !m.Null? ==> (OnPath(n, key, m) <==> n == m || OnPath(child, rest, m));
      assert OnPath(n, key, n);
    case Extension(path, child) =>
      if path <= key {
        var rest := key[|path|..];
        DeleteRefsIff(child, rest, r);
        assert forall m :: OnPath(n, key, m) <==> n == m || OnPath(child, rest, m);
      }
      assert OnPath(n, key, n);
    case Leaf(_, _) => assert OnPath(n, key, n);
    case _ =>
  }

  // What must be recorded.

  ghost predicate Marked(n: Node, marks: iset<Reference>) {
    n.Null? || n.Digest? || Ref(n) in marks
  }

  /**
   * `marks` has every node that updates of `keys` can need: the nodes on the paths of the keys,
   * and each leaf or extension that could be left alone in its branch by deletions of `deletable` keys.
   */
  ghost predicate Recorded(n: Node, keys: iset<Path>, deletable: iset<Path>, marks: iset<Reference>)
    decreases n, 1
  {
    keys == iset{} || (Marked(n, marks) && RecordedBelow(n, keys, deletable, marks))
  }

  ghost predicate RecordedBelow(n: Node, keys: iset<Path>, deletable: iset<Path>, marks: iset<Reference>)
    decreases n, 0
  {
    match n
    case Branch(children) =>
      forall i: Nibble :: i < |children| ==>
        && Recorded(children[i], Below(keys, [i]), Below(deletable, [i]), marks)
        && (AnotherAlive(children, i, deletable) || children[i].Branch? || Marked(children[i], marks))
    case Extension(path, child) => Recorded(child, Below(keys, path), Below(deletable, path), marks)
    case _ => true
  }

  lemma AnotherChild(children: seq<Node>, i: Nibble) returns (j: Nibble)
    requires Canonical(Branch(children))
    ensures j != i && !children[j].Null?
  {
    var a, b :| 0 <= a < b < 16 && !children[a].Null? && !children[b].Null?;
    j := if a == i then b else a;
  }

  /** Without keys nothing needs to be recorded. */
  lemma {:induction false} NothingNeeded(n: Node, marks: iset<Reference>)
    requires Canonical(n)
    ensures RecordedBelow(n, iset{}, iset{}, marks)
  {
    match n
    case Branch(children) =>
      forall i: Nibble | i < |children|
        ensures Below(iset{}, [i]) == iset{} && AnotherAlive(children, i, iset{})
      {
        var j := AnotherChild(children, i);
        var key := SomeKey(children[j]);
        assert Lasting(Find(children[j], key), key, Below(iset{}, [j]));
      }
    case Extension(path, child) =>
      assert Below(iset{}, path) == iset{};
    case _ =>
  }

  /** What is recorded behind a node is recorded behind what it was grafted onto. */
  lemma GraftRecorded(
      path: Path, n: Node, keys: iset<Path>, deletable: iset<Path>, marks: iset<Reference>)
    requires Canonical(n) && deletable <= keys
    requires RecordedBelow(Graft(path, n), keys, deletable, marks)
    ensures RecordedBelow(n, Below(keys, path), Below(deletable, path), marks)
  {
    match n
    case Extension(rest, child) =>
      BelowTwice(keys, path, rest);
      BelowTwice(deletable, path, rest);
    case Branch(_) =>
      if Below(keys, path) == iset{} {
        assert Below(deletable, path) == iset{};
        NothingNeeded(n, marks);
      }
    case _ =>
  }

  lemma RecordedInside(n: Node, keys: iset<Path>, deletable: iset<Path>, marks: iset<Reference>)
    requires Canonical(n) && deletable <= keys && Recorded(n, keys, deletable, marks)
    ensures RecordedBelow(n, keys, deletable, marks)
  {
    if keys == iset{} {
      assert deletable == iset{};
      NothingNeeded(n, marks);
    }
  }

  lemma BelowAdd(keys: iset<Path>, key: Path, prefix: Path)
    ensures prefix <= key ==> Below(keys + iset{key}, prefix) == Below(keys, prefix) + iset{key[|prefix|..]}
    ensures !(prefix <= key) ==> Below(keys + iset{key}, prefix) == Below(keys, prefix)
  {
    forall rest ensures rest in Below(keys + iset{key}, prefix) <==>
        rest in Below(keys, prefix) || (prefix <= key && rest == key[|prefix|..])
    {
      if prefix <= key {
        SplitKey(prefix, key);
      }
      assert (prefix + rest)[|prefix|..] == rest;
    }
  }

  // One step of a series.

  lemma {:induction false} LookRecords(
      n: Node, key: Path, keys: iset<Path>, deletable: iset<Path>, marks: iset<Reference>)
    requires Canonical(n) && deletable <= keys
    requires RecordedBelow(n, keys, deletable, marks)
    requires forall r :: r in PathRefs(n, key) ==> r in marks
    ensures Marked(n, marks) && RecordedBelow(n, keys + iset{key}, deletable, marks)
  {
    match n
    case Branch(children) =>
      forall i: Nibble | i < |children|
        ensures Recorded(children[i], Below(keys + iset{key}, [i]), Below(deletable, [i]), marks)
      {
        BelowAdd(keys, key, [i]);
        if [i] <= key && !children[i].Null? {
          RecordedInside(children[i], Below(keys, [i]), Below(deletable, [i]), marks);
          LookRecords(children[i], key[1..], Below(keys, [i]), Below(deletable, [i]), marks);
        }
      }
    case Extension(path, child) =>
      BelowAdd(keys, key, path);
      if path <= key {
        RecordedInside(child, Below(keys, path), Below(deletable, path), marks);
        LookRecords(child, key[|path|..], Below(keys, path), Below(deletable, path), marks);
      }
    case _ =>
  }

  /** What was alive after a deletion was so before, even if the deleted key may go. */
  lemma AliveBefore(n: Node, key: Path, deletable: iset<Path>)
    requires Delete(n, key).Done? && Alive(Delete(n, key).node, deletable)
    ensures Alive(n, deletable + iset{key})
  {
    var node := Delete(n, key).node;
    DeleteRefines(n, key);
    var other :| Lasting(Find(node, other), other, deletable);
    assert Lasting(Find(n, other), other, deletable + iset{key});
  }

  lemma AnotherAliveBefore(children: seq<Node>, i: Nibble, rest: Path, deletable: iset<Path>, j: Nibble)
    requires |children| == 16 && Delete(children[i], rest).Done?
    requires AnotherAlive(children[i := Delete(children[i], rest).node], j, deletable)
    ensures AnotherAlive(children, j, deletable + iset{[i] + rest})
  {
    var after := children[i := Delete(children[i], rest).node];
    var k: Nibble :| k < |after| && k != j && Alive(after[k], Below(deletable, [k]));
    BelowAdd(deletable, [i] + rest, [k]);
    if k == i {
      assert ([i] + rest)[1..] == rest;
      AliveBefore(children[i], rest, Below(deletable, [i]));
    }
  }

  /** The node on the path of a deletion is marked. */
  lemma RootMarked(n: Node, key: Path, marks: iset<Reference>)
    requires forall r :: r in DeleteRefs(n, key) ==> r in marks
    ensures Marked(n, marks)
  {}

  lemma {:induction false} DropRecords(
      n: Node, key: Path, keys: iset<Path>, deletable: iset<Path>, marks: iset<Reference>)
    requires Canonical(n) && deletable <= keys && Delete(n, key).Done?
    requires RecordedBelow(Delete(n, key).node, keys, deletable, marks)
    requires forall r :: r in DeleteRefs(n, key) ==> r in marks
    ensures RecordedBelow(n, keys + iset{key}, deletable + iset{key}, marks)
    decreases n, 1
  {
    match n
    case Branch(children) => DropRecordsBranch(children, key, keys, deletable, marks);
    case Extension(path, child) =>
      BelowAdd(keys, key, path);
      BelowAdd(deletable, key, path);
      if path <= key {
        RootMarked(child, key[|path|..], marks);
        DeleteCanonical(child, key[|path|..]);
        var below := Delete(child, key[|path|..]);
        if below.Changes() {
          GraftRecorded(path, below.node, keys, deletable, marks);
        } else {
          DeleteRefines(child, key[|path|..]);
          RecordedInside(child, Below(keys, path), Below(deletable, path), marks);
        }
        DropRecords(child, key[|path|..], Below(keys, path), Below(deletable, path), marks);
      }
    case _ =>
  }

  lemma {:induction false} DropRecordsBranch(
      children: seq<Node>, key: Path, keys: iset<Path>, deletable: iset<Path>, marks: iset<Reference>)
    requires Canonical(Branch(children)) && deletable <= keys && Delete(Branch(children), key).Done?
    requires RecordedBelow(Delete(Branch(children), key).node, keys, deletable, marks)
    requires forall r :: r in DeleteRefs(Branch(children), key) ==> r in marks
    ensures RecordedBelow(Branch(children), keys + iset{key}, deletable + iset{key}, marks)
    decreases Branch(children), 0
  {
    var i, rest := key[0], key[1..];
    assert key == [i] + rest;
    var below := Delete(children[i], rest);
    DeleteRefines(children[i], rest);
    var after := children[i := below.node];
    DeleteCanonical(children[i], rest);
    if below.Changes() {
      CollapsedBranchRecorded(after, i, keys, deletable, marks);
    } else {
      assert after == children;
      KeptBranchRecorded(after, i, keys, deletable, marks);
    }
    forall j: Nibble | j < |children|
      ensures Recorded(children[j], Below(keys + iset{key}, [j]), Below(deletable + iset{key}, [j]), marks)
      ensures AnotherAlive(children, j, deletable + iset{key}) || children[j].Branch? || Marked(children[j], marks)
    {
      BelowAdd(keys, key, [j]);
      BelowAdd(deletable, key, [j]);
      if j == i {
        RootMarked(children[i], rest, marks);
        DropRecords(children[i], rest, Below(keys, [i]), Below(deletable, [i]), marks);
      } else if AnotherAlive(after, j, deletable) {
        AnotherAliveBefore(children, i, rest, deletable, j);
      }
    }
  }

  /** What is recorded of the children of a branch, of which child `i` was changed. */
  ghost predicate RecordedAfter(
      after: seq<Node>, i: Nibble, keys: iset<Path>, deletable: iset<Path>, marks: iset<Reference>)
    requires |after| == 16
  {
    && RecordedBelow(after[i], Below(keys, [i]), Below(deletable, [i]), marks)
    && forall j: Nibble :: j != i ==>
         && Recorded(after[j], Below(keys, [j]), Below(deletable, [j]), marks)
         && (AnotherAlive(after, j, deletable) || after[j].Branch? || Marked(after[j], marks))
  }

  lemma KeptBranchRecorded(
      after: seq<Node>, i: Nibble, keys: iset<Path>, deletable: iset<Path>, marks: iset<Reference>)
    requires |after| == 16 && Canonical(after[i]) && deletable <= keys
    requires RecordedBelow(Branch(after), keys, deletable, marks)
    ensures RecordedAfter(after, i, keys, deletable, marks)
  {
    RecordedInside(after[i], Below(keys, [i]), Below(deletable, [i]), marks);
  }

  lemma CollapsedBranchRecorded(
      after: seq<Node>, i: Nibble, keys: iset<Path>, deletable: iset<Path>, marks: iset<Reference>)
    requires |after| == 16 && deletable <= keys && forall j: Nibble :: Canonical(after[j])
    requires Collapse(after).Done?
    requires RecordedBelow(Collapse(after).node, keys, deletable, marks)
    requires forall r :: r in OrphanRef(after) ==> r in marks
    ensures RecordedAfter(after, i, keys, deletable, marks)
  {
    var first := FirstChild(after, 0);
    if FirstChild(after, first + 1) == 16 {
      GraftRecorded([first], after[first], keys, deletable, marks);
      assert Ref(after[first]) in OrphanRef(after);
      assert forall j: Nibble :: j != first ==> after[j].Null?;
    } else {
      KeptBranchRecorded(after, i, keys, deletable, marks);
    }
  }
}
