/** The canonical form is kept by every update, and updates fail exactly when they must. */
module TrieForm {
  import opened Primitives
  import opened Nibbles
  import opened Trie
  import opened TrieMap

  // The canonical form is an invariant.

  lemma GraftCanonical(prefix: Path, n: Node)
    requires prefix != [] && Canonical(n)
    ensures Canonical(Graft(prefix, n)) && !Graft(prefix, n).Digest?
    ensures Graft(prefix, n).Null? <==> n.Null?
  {}

  lemma ForkCanonical(common: Path, i: Nibble, left: Node, j: Nibble, right: Node)
    requires i != j && Canonical(left) && Canonical(right) && !left.Null? && !right.Null?
    ensures Canonical(Fork(common, i, left, j, right))
  {
    var children := EmptySlots()[i := left][j := right];
    var low, high := if i < j then i else j, if i < j then j else i;
    assert !children[low].Null? && !children[high].Null?;
    assert Canonical(Branch(children));
  }

  lemma ReplaceCanonical(children: seq<Node>, i: Nibble, child: Node)
    requires Canonical(Branch(children)) && Canonical(child) && !child.Null?
    ensures Canonical(Branch(children[i := child]))
  {
    var a, b :| 0 <= a < b < 16 && !children[a].Null? && !children[b].Null?;
    var updated := children[i := child];
    assert !updated[a].Null? && !updated[b].Null?;
  }

  lemma {:induction false} InsertCanonical(n: Node, key: Path, value: Bytes)
    requires Canonical(n) && Insert(n, key, value).Done?
    ensures var node := Insert(n, key, value).node;
      Canonical(node) && !node.Null? && !node.Digest? && (n.Branch? ==> node.Branch?)
  {
    match n
    case Null =>
    case Branch(children) =>
      InsertCanonical(children[key[0]], key[1..], value);
      var below := Insert(children[key[0]], key[1..], value);
      if below.Changes() {
        ReplaceCanonical(children, key[0], below.node);
      }
    case Leaf(path, oldValue) =>
      var common := Lcp(path, key);
      if common < |path| && common < |key| {
        ForkCanonical(path[..common], path[common], Leaf(path[common + 1..], oldValue),
                      key[common], Leaf(key[common + 1..], value));
      }
    case Extension(path, child) =>
      var common := Lcp(path, key);
      if common == |path| {
        InsertCanonical(child, key[common..], value);
      } else {
        var rest := path[common + 1..];
        ForkCanonical(path[..common], path[common], if rest != [] then Extension(rest, child) else child,
                      key[common], Leaf(key[common + 1..], value));
      }
  }

  lemma CollapseCanonical(children: seq<Node>)
    requires |children| == 16 && forall i :: 0 <= i < 16 ==> Canonical(children[i])
    requires exists i :: 0 <= i < 16 && !children[i].Null?
    ensures Collapse(children).Changes()
    ensures var node := Collapse(children).node; Canonical(node) && !node.Null? && !node.Digest?
  {
    var first := FirstChild(children, 0);
    var second := FirstChild(children, first + 1);
    if second == 16 {
      GraftCanonical([first], children[first]);
    } else {
      assert 0 <= first < second < 16;
    }
  }

  /** Deletion keeps the canonical form, and a branch never loses its last child. */
  lemma {:induction false} DeleteCanonical(n: Node, key: Path)
    requires Canonical(n)
    ensures Delete(n, key) != Failed(NoChildLeft)
    ensures Delete(n, key).Done? ==> Canonical(Delete(n, key).node)
    ensures Delete(n, key).Changes() ==> !Delete(n, key).node.Digest?
    ensures Delete(n, key).Changes() && n.Branch? ==> !Delete(n, key).node.Null?
  {
    match n
    case Branch(children) =>
      if key != [] {
        var i := key[0];
        DeleteCanonical(children[i], key[1..]);
        var below := Delete(children[i], key[1..]);
        if below.Changes() {
          var a, b :| 0 <= a < b < 16 && !children[a].Null? && !children[b].Null?;
          var updated := children[i := below.node];
          assert !updated[if a == i then b else a].Null?;
          CollapseCanonical(updated);
        }
      }
    case Extension(path, child) =>
      if path <= key {
        DeleteCanonical(child, key[|path|..]);
        var below := Delete(child, key[|path|..]);
        if below.Changes() {
          GraftCanonical(path, below.node);
        }
      }
    case _ =>
  }

  // A canonical trie that is not empty has an entry.

  function SomeKey(n: Node): (key: Path)
    requires Canonical(n) && !n.Null?
    ensures Find(n, key) != Missing
  {
    match n
    case Branch(children) =>
      var i := FirstChild(children, 0);
      var rest := SomeKey(children[i]);
      assert ([i] + rest)[1..] == rest;
      [i] + rest
    case Leaf(path, _) => path
    case Extension(path, child) =>
      var rest := SomeKey(child);
      assert (path + rest)[|path|..] == rest;
      path + rest
    case Digest(_, _) => []
  }

  /** A branch has entries under two different nibbles. */
  lemma TwoKeys(n: Node) returns (a: Path, b: Path)
    requires Canonical(n) && n.Branch?
    ensures a != [] && b != [] && a[0] != b[0]
    ensures Find(n, a) != Missing && Find(n, b) != Missing
  {
    var i, j :| 0 <= i < j < 16 && !n.children[i].Null? && !n.children[j].Null?;
    var below, beside := SomeKey(n.children[i]), SomeKey(n.children[j]);
    a, b := [i] + below, [j] + beside;
    assert a[1..] == below && b[1..] == beside;
  }

  // When updates fail.

  /** Another entry of the trie is a prefix of the key or has it as a prefix. */
  ghost predicate Clash(n: Node, key: Path)
  {
    exists other :: other != key && (other <= key || key <= other) && Find(n, other) != Missing
  }

  lemma ClashInBranch(children: seq<Node>, key: Path)
    requires Canonical(Branch(children)) && key != []
    ensures Clash(Branch(children), key) <==> Clash(children[key[0]], key[1..])
  {
    var n, i := Branch(children), key[0];
    if Clash(n, key) {
      var other :| other != key && (other <= key || key <= other) && Find(n, other) != Missing;
      assert other == [other[0]] + other[1..] && key == [i] + key[1..];
      assert other[0] == i;
      var rest := other[1..];
      assert rest != key[1..] && (rest <= key[1..] || key[1..] <= rest) && Find(children[i], rest) != Missing;
    }
    if Clash(children[i], key[1..]) {
      var rest :| rest != key[1..] && (rest <= key[1..] || key[1..] <= rest) && Find(children[i], rest) != Missing;
      var other := [i] + rest;
      assert other[1..] == rest && key == [i] + key[1..];
      assert other != key && (other <= key || key <= other);
      assert Find(n, other) != Missing;
    }
  }

  lemma ClashInExtension(path: Path, child: Node, key: Path)
    requires Canonical(Extension(path, child)) && path <= key
    ensures Clash(Extension(path, child), key) <==> Clash(child, key[|path|..])
  {
    var n, tail := Extension(path, child), key[|path|..];
    SplitKey(path, key);
    if Clash(n, key) {
      var other :| other != key && (other <= key || key <= other) && Find(n, other) != Missing;
      SplitKey(path, other);
      var rest := other[|path|..];
      assert rest != tail && (rest <= tail || tail <= rest) && Find(child, rest) != Missing;
    }
    if Clash(child, tail) {
      var rest :| rest != tail && (rest <= tail || tail <= rest) && Find(child, rest) != Missing;
      var other := path + rest;
      assert other[|path|..] == rest;
      assert other != key && (other <= key || key <= other) && Find(n, other) != Missing;
    }
  }

  /** Every entry of a leaf or extension starts with its path. */
  lemma EntriesBehind(n: Node, key: Path)
    requires (n.Leaf? || n.Extension?) && Find(n, key) != Missing
    ensures n.path <= key
  {}

  /** What lies on the way of a key that leaves a path is not behind that path. */
  lemma NotBehind(path: Path, key: Path, other: Path)
    requires Lcp(path, key) < |path| && Lcp(path, key) < |key|
    requires other <= key || key <= other
    ensures !(path <= other)
  {
    var at := Lcp(path, key);
    if |path| <= |other| {
      assert other[at] == key[at] != path[at];
    }
  }

  lemma NoClashWhenForked(n: Node, key: Path)
    requires (n.Leaf? || n.Extension?)
    requires Lcp(n.path, key) < |n.path| && Lcp(n.path, key) < |key|
    ensures Find(n, key) == Missing && !Clash(n, key)
  {
    forall other | other <= key || key <= other
      ensures Find(n, other) == Missing
    {
      NotBehind(n.path, key, other);
    }
  }

  /**
   * Insertion fails exactly when an unresolved node is on the path, or when the key would end
   * inside another entry or another entry inside it.
   */
  lemma {:induction false} InsertOutcome(n: Node, key: Path, value: Bytes)
    requires Canonical(n)
    ensures var update := Insert(n, key, value);
      && (Find(n, key).Blocked? ==> update == Failed(NodeNotResolved(Find(n, key).stub.digest)))
      && (Find(n, key) == Missing && Clash(n, key) ==> update == Failed(ValueInBranch))
      && (!Find(n, key).Blocked? && !(Find(n, key) == Missing && Clash(n, key)) ==> update.Done?)
  {
    match n
    case Null =>
    case Branch(children) =>
      if key == [] {
        var other := SomeKey(n);
        assert key <= other && Find(n, other) != Missing;
      } else {
        ClashInBranch(children, key);
        InsertOutcome(children[key[0]], key[1..], value);
      }
    case Leaf(path, _) =>
      var at := Lcp(path, key);
      if at < |path| && at < |key| {
        NoClashWhenForked(n, key);
      } else if path != key {
        assert path == path[..|path|] && key == key[..|key|];
        assert Find(n, path) != Missing;
      }
    case Extension(path, child) =>
      var at := Lcp(path, key);
      assert path == path[..|path|] && key == key[..|key|];
      if at == |path| {
        ClashInExtension(path, child, key);
        InsertOutcome(child, key[at..], value);
      } else if at == |key| {
        var other := SomeKey(n);
        EntriesBehind(n, other);
        assert key <= path <= other && other != key;
      } else {
        NoClashWhenForked(n, key);
      }
    case Digest(_, _) =>
  }

  /** Two entries part exactly at this key: there is a branch there. */
  ghost predicate Parts(n: Node, key: Path)
  {
    exists a, b :: Find(n, a) != Missing && Find(n, b) != Missing && PartAt(key, a, b)
  }

  predicate PartAt(key: Path, a: Path, b: Path) {
    key <= a && key <= b && |key| < |a| && |key| < |b| && a[|key|] != b[|key|]
  }

  lemma PartAtBehind(prefix: Path, key: Path, a: Path, b: Path)
    ensures PartAt(prefix + key, prefix + a, prefix + b) <==> PartAt(key, a, b)
  {
    assert forall x: Path :: (prefix + x)[|prefix|..] == x;
    PrefixSum(prefix, key, prefix + a);
    PrefixSum(prefix, key, prefix + b);
    if key <= a && key <= b && |key| < |a| && |key| < |b| {
      assert (prefix + a)[|prefix + key|] == a[|key|];
      assert (prefix + b)[|prefix + key|] == b[|key|];
    }
  }

  lemma PartsInBranch(children: seq<Node>, key: Path)
    requires Canonical(Branch(children)) && key != []
    ensures Parts(Branch(children), key) <==> Parts(children[key[0]], key[1..])
  {
    var n, i, tail := Branch(children), key[0], key[1..];
    assert key == [i] + tail;
    if Parts(n, key) {
      var a, b :| Find(n, a) != Missing && Find(n, b) != Missing && PartAt(key, a, b);
      assert a[0] == i && b[0] == i;
      assert a == [i] + a[1..] && b == [i] + b[1..];
      PartAtBehind([i], tail, a[1..], b[1..]);
    }
    if Parts(children[i], tail) {
      var a, b :| Find(children[i], a) != Missing && Find(children[i], b) != Missing && PartAt(tail, a, b);
      PartAtBehind([i], tail, a, b);
      assert ([i] + a)[1..] == a && ([i] + b)[1..] == b;
      assert Find(n, [i] + a) != Missing && Find(n, [i] + b) != Missing;
    }
  }

  lemma PartsInExtension(path: Path, child: Node, key: Path)
    requires Canonical(Extension(path, child)) && path <= key
    ensures Parts(Extension(path, child), key) <==> Parts(child, key[|path|..])
  {
    var n, tail := Extension(path, child), key[|path|..];
    SplitKey(path, key);
    if Parts(n, key) {
      var a, b :| Find(n, a) != Missing && Find(n, b) != Missing && PartAt(key, a, b);
      SplitKey(path, a);
      SplitKey(path, b);
      PartAtBehind(path, tail, a[|path|..], b[|path|..]);
    }
    if Parts(child, tail) {
      var a, b :| Find(child, a) != Missing && Find(child, b) != Missing && PartAt(tail, a, b);
      PartAtBehind(path, tail, a, b);
      assert (path + a)[|path|..] == a && (path + b)[|path|..] == b;
      assert Find(n, path + a) != Missing && Find(n, path + b) != Missing;
    }
  }

  /** Deletion fails exactly when an unresolved node is on the path or the key ends at a branch. */
  lemma {:induction false} DeleteOutcome(n: Node, key: Path)
    requires Canonical(n)
    ensures var update := Delete(n, key);
      && (Find(n, key).Blocked? ==> update == Failed(NodeNotResolved(Find(n, key).stub.digest)))
      && (!Find(n, key).Blocked? && Parts(n, key) ==> update == Failed(ValueInBranch))
      && (!Find(n, key).Blocked? && !Parts(n, key) ==> update.Done?)
  {
    match n
    case Null =>
    case Branch(children) =>
      if key == [] {
        var a, b := TwoKeys(n);
        assert PartAt(key, a, b);
      } else {
        PartsInBranch(children, key);
        DeleteOutcome(children[key[0]], key[1..]);
        DeleteCanonical(n, key);
      }
    case Leaf(path, _) =>
    case Extension(path, child) =>
      if path <= key {
        PartsInExtension(path, child, key);
        DeleteOutcome(child, key[|path|..]);
      }
    case Digest(_, _) =>
  }
}
