/** Insertion, deletion and lookup refine a finite map from keys to values, and keep the canonical form. */
module TrieMap {
  import opened Primitives
  import opened Nibbles
  import opened Trie

  /** Splitting a key at a prefix. */
  lemma SplitKey(prefix: Path, key: Path)
    requires prefix <= key
    ensures key == prefix + key[|prefix|..]
  {}

  lemma PrefixSum(p: Path, q: Path, key: Path)
    ensures p + q <= key <==> p <= key && q <= key[|p|..]
    ensures p + q <= key ==> key[|p| + |q|..] == key[|p|..][|q|..]
  {
    if p + q <= key {
      SplitKey(p + q, key);
      assert key == p + (q + key[|p| + |q|..]);
      assert key[|p|..] == q + key[|p| + |q|..];
    }
    if p <= key && q <= key[|p|..] {
      SplitKey(p, key);
      SplitKey(q, key[|p|..]);
      assert key == (p + q) + key[|p|..][|q|..];
    }
  }

  /** Lookup behind a prefix. */
  function FindBehind(prefix: Path, n: Node, key: Path): Lookup
  {
    if prefix <= key then Find(n, key[|prefix|..]) else Missing
  }

  lemma GraftFind(prefix: Path, n: Node, key: Path)
    ensures Find(Graft(prefix, n), key) == FindBehind(prefix, n, key)
  {
    match n
    case Leaf(rest, value) =>
      PrefixSum(prefix, rest, key);
      if prefix <= key {
        SplitKey(prefix, key);
      }
    case Extension(rest, child) =>
      PrefixSum(prefix, rest, key);
    case _ =>
  }

  lemma ForkFind(common: Path, i: Nibble, left: Node, j: Nibble, right: Node, key: Path)
    requires i != j
    ensures Find(Fork(common, i, left, j, right), key)
         == if common + [i] <= key then FindBehind(common + [i], left, key)
            else FindBehind(common + [j], right, key)
  {
    var branch := Branch(EmptySlots()[i := left][j := right]);
    assert common == [] ==> key[|common|..] == key;
    assert Find(Fork(common, i, left, j, right), key) == FindBehind(common, branch, key);
    PrefixSum(common, [i], key);
    PrefixSum(common, [j], key);
    assert |common + [i]| == |common + [j]| == |common| + 1;
    if common <= key {
      var rest := key[|common|..];
      assert Find(branch, rest) == if rest == [] then Missing else Find(branch.children[rest[0]], rest[1..]);
      assert [i] <= rest <==> rest != [] && rest[0] == i;
      assert [j] <= rest <==> rest != [] && rest[0] == j;
    }
  }

  lemma CollapseFind(children: seq<Node>, key: Path)
    requires |children| == 16
    requires Collapse(children).Done?
    ensures Find(Collapse(children).node, key) == Find(Branch(children), key)
  {
    var first := FirstChild(children, 0);
    if FirstChild(children, first + 1) == 16 {
      GraftFind([first], children[first], key);
    }
  }

  // Insertion.

  lemma {:induction false} InsertFindAt(n: Node, key: Path, value: Bytes, other: Path)
    requires Insert(n, key, value).Done?
    ensures Find(Insert(n, key, value).node, other) == if other == key then Found(value) else Find(n, other)
  {
    InsertChanged(n, key, value);
    match n
    case Null =>
    case Branch(children) =>
      var i := key[0];
      InsertChanged(children[i], key[1..], value);
      if other != [] && other[0] == i {
        InsertFindAt(children[i], key[1..], value, other[1..]);
        assert key == [i] + key[1..] && other == [i] + other[1..];
      } else {
        InsertFindAt(children[i], key[1..], value, []);
      }
    case Leaf(path, oldValue) => InsertFindLeaf(path, oldValue, key, value, other);
    case Extension(path, child) =>
      if Lcp(path, key) == |path| {
        SplitKey(path, key);
        var rest := if path <= other then other[|path|..] else [];
        InsertFindAt(child, key[|path|..], value, rest);
        if path <= other { SplitKey(path, other); }
        InsertChanged(child, key[|path|..], value);
      } else {
        InsertFindFork(path, child, key, value, other);
      }
    case Digest(_, _) =>
  }

  /** A key that continues past position `at` is what comes before, the nibble there, and the rest. */
  lemma ForkedKey(path: Path, at: nat, key: Path)
    requires at < |path|
    ensures path == path[..at] + [path[at]] + path[at + 1..]
    ensures path[..at] + [path[at]] <= key && path[at + 1..] == key[at + 1..] <==> key == path
  {
    assert path == path[..at] + [path[at]] + path[at + 1..];
    if path[..at] + [path[at]] <= key {
      SplitKey(path[..at] + [path[at]], key);
    }
  }

  lemma InsertFindLeaf(path: Path, oldValue: Bytes, key: Path, value: Bytes, other: Path)
    requires Insert(Leaf(path, oldValue), key, value).Done?
    ensures Find(Insert(Leaf(path, oldValue), key, value).node, other)
         == if other == key then Found(value) else Find(Leaf(path, oldValue), other)
  {
    var common := Lcp(path, key);
    if common < |path| && common < |key| {
      var left, right := Leaf(path[common + 1..], oldValue), Leaf(key[common + 1..], value);
      ForkFind(path[..common], path[common], left, key[common], right, other);
      ForkedKey(path, common, other);
      ForkedKey(key, common, other);
    }
  }

  lemma InsertFindFork(path: Path, child: Node, key: Path, value: Bytes, other: Path)
    requires Lcp(path, key) < |path| && Lcp(path, key) < |key|
    ensures Find(Insert(Extension(path, child), key, value).node, other)
         == if other == key then Found(value) else Find(Extension(path, child), other)
  {
    var common := Lcp(path, key);
    var upTo, rest := path[..common] + [path[common]], path[common + 1..];
    var left := if rest != [] then Extension(rest, child) else child;
    ForkFind(path[..common], path[common], left, key[common], Leaf(key[common + 1..], value), other);
    assert path == upTo + rest;
    FindBehindTwice(upTo, rest, child, other);
    ForkedKey(key, common, other);
  }

  lemma FindBehindTwice(front: Path, rest: Path, child: Node, key: Path)
    ensures FindBehind(front, if rest != [] then Extension(rest, child) else child, key)
         == Find(Extension(front + rest, child), key)
  {
    PrefixSum(front, rest, key);
    assert rest == [] ==> front + rest == front;
  }

  /** Insertion is the map update, and reports a change exactly when the map changes. */
  lemma InsertRefines(n: Node, key: Path, value: Bytes)
    requires Insert(n, key, value).Done?
    ensures var update := Insert(n, key, value);
      && (forall other :: Find(update.node, other) == if other == key then Found(value) else Find(n, other))
      && (update.changed <==> Find(n, key) != Found(value))
      && (!update.changed ==> update.node == n)
  {
    forall other
        ensures Find(Insert(n, key, value).node, other) == if other == key then Found(value) else Find(n, other)
    {
      InsertFindAt(n, key, value, other);
    }
    InsertChanged(n, key, value);
  }

  lemma {:induction false} InsertChanged(n: Node, key: Path, value: Bytes)
    requires Insert(n, key, value).Done?
    ensures Insert(n, key, value).changed <==> Find(n, key) != Found(value)
    ensures !Insert(n, key, value).changed ==> Insert(n, key, value).node == n
  {
    match n
    case Branch(children) => InsertChanged(children[key[0]], key[1..], value);
    case Extension(path, child) =>
      var common := Lcp(path, key);
      if common == |path| {
        InsertChanged(child, key[common..], value);
      }
    case _ =>
  }

  // Deletion.

  lemma {:induction false} DeleteFindAt(n: Node, key: Path, other: Path)
    requires Delete(n, key).Done?
    ensures Find(Delete(n, key).node, other) == if other == key then Missing else Find(n, other)
    ensures Delete(n, key).changed <==> Find(n, key).Found?
    ensures !Delete(n, key).changed ==> Delete(n, key).node == n && Find(n, key) == Missing
  {
    match n
    case Branch(children) =>
      var i := key[0];
      var rest := if other != [] then other[1..] else [];
      DeleteFindAt(children[i], key[1..], rest);
      assert key == [i] + key[1..];
      assert other != [] ==> other == [other[0]] + rest;
      var below := Delete(children[i], key[1..]);
      if below.Changes() {
        CollapseFind(children[i := below.node], other);
      }
    case Extension(path, child) =>
      if path <= key {
        var rest := if path <= other then other[|path|..] else [];
        DeleteFindAt(child, key[|path|..], rest);
        SplitKey(path, key);
        if path <= other { SplitKey(path, other); }
        var below := Delete(child, key[|path|..]);
        if below.Changes() {
          GraftFind(path, below.node, other);
        }
      }
    case _ =>
  }

  /** Deletion is the map removal, and reports a change exactly when the key was there. */
  lemma DeleteRefines(n: Node, key: Path)
    requires Delete(n, key).Done?
    ensures var update := Delete(n, key);
      && (forall other :: Find(update.node, other) == if other == key then Missing else Find(n, other))
      && (update.changed <==> Find(n, key).Found?)
      && (!update.changed ==> update.node == n)
  {
    forall other
        ensures Find(Delete(n, key).node, other) == if other == key then Missing else Find(n, other)
    {
      DeleteFindAt(n, key, other);
    }
    DeleteFindAt(n, key, key);
  }
}
