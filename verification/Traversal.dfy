/** Visiting all leaves with an explicit stack: `for_each_leaves`. */
module Traversal {
  import opened Primitives
  import opened Nibbles
  import opened Trie
  import opened TrieMap
  import opened TrieForm
  import opened TrieHistory

  /** A node that is still to be visited, and the path to it. */
  type Pending = (Node, Path)

  type Pair = (Path, Bytes)

  /** Whether a path list fits everywhere below the node: the source's paths hold 64 nibbles. */
  predicate PathsFit(n: Node, length: nat) {
    match n
    case Branch(children) =>
      && |children| == 16
      && forall i :: 0 <= i < 16 && !children[i].Null? ==> length < 64 && PathsFit(children[i], length + 1)
    case Leaf(path, _) => length + |path| <= 64
    case Extension(path, child) => length + |path| <= 64 && PathsFit(child, length + |path|)
    case _ => true
  }

  /** The key-value pairs in the order of the visit: the last child first. */
  function Pairs(n: Node, path: Path): seq<Pair>
    decreases n, 0
  {
    match n
    case Branch(children) => if |children| == 16 then PairsUpTo(children, path, 16) else []
    case Leaf(rest, value) => [(path + rest, value)]
    case Extension(rest, child) => Pairs(child, path + rest)
    case _ => []
  }

  function PairsUpTo(children: seq<Node>, path: Path, count: nat): seq<Pair>
    requires count <= |children| == 16
    decreases children, count
  {
    if count == 0 then []
    else Pairs(children[count - 1], path + [count - 1]) + PairsUpTo(children, path, count - 1)
  }

  function StackPairs(stack: seq<Pending>): seq<Pair> {
    if stack == [] then []
    else
      var top := stack[|stack| - 1];
      Pairs(top.0, top.1) + StackPairs(stack[..|stack| - 1])
  }

  function Size(n: Node): (size: nat)
    ensures size >= 1
    decreases n, 0
  {
    match n
    case Branch(children) => 1 + SizeAll(children)
    case Extension(_, child) => 1 + Size(child)
    case _ => 1
  }

  function SizeAll(children: seq<Node>): nat
    decreases children, 0
  {
    if children == [] then 0 else SizeAll(children[..|children| - 1]) + Size(children[|children| - 1])
  }

  function StackSize(stack: seq<Pending>): nat {
    if stack == [] then 0 else StackSize(stack[..|stack| - 1]) + Size(stack[|stack| - 1].0)
  }

  /** The calls of the callback, one after the other. */
  method ForEachLeaves(root: Node) returns (calls: seq<Pair>)
    requires PathsFit(root, 0)
    ensures calls == Pairs(root, [])
  {
    var stack: seq<Pending> := [(root, [])];
    calls := [];
    while stack != []
      invariant forall i :: 0 <= i < |stack| ==> PathsFit(stack[i].0, |stack[i].1|)
      invariant calls + StackPairs(stack) == Pairs(root, [])
      decreases StackSize(stack)
    {
      var (node, path) := stack[|stack| - 1];
      stack := stack[..|stack| - 1];
      match node
      case Null =>
      case Digest(_, _) =>
      case Branch(children) => stack := PushChildren(stack, children, path);
      case Leaf(rest, value) => calls := calls + [(path + rest, value)];
      case Extension(rest, child) =>
        var pending := (child, path + rest);
        StackOneMore(stack, pending);
        stack := stack + [pending];
    }
  }

  method PushChildren(stack: seq<Pending>, children: seq<Node>, path: Path) returns (pushed: seq<Pending>)
    requires PathsFit(Branch(children), |path|)
    requires forall i :: 0 <= i < |stack| ==> PathsFit(stack[i].0, |stack[i].1|)
    ensures forall i :: 0 <= i < |pushed| ==> PathsFit(pushed[i].0, |pushed[i].1|)
    ensures StackPairs(pushed) == PairsUpTo(children, path, 16) + StackPairs(stack)
    ensures StackSize(pushed) <= StackSize(stack) + SizeAll(children)
  {
    pushed := stack;
    for i := 0 to 16
      invariant forall j :: 0 <= j < |pushed| ==> PathsFit(pushed[j].0, |pushed[j].1|)
      invariant StackPairs(pushed) == PairsUpTo(children, path, i) + StackPairs(stack)
      invariant StackSize(pushed) <= StackSize(stack) + SizeAll(children[..i])
    {
      SizeOneMore(children, i);
      if !children[i].Null? {
        var pending := (children[i], path + [i]);
        StackOneMore(pushed, pending);
        pushed := pushed + [pending];
      }
    }
    assert children[..16] == children;
  }

  lemma SizeOneMore(children: seq<Node>, i: nat)
    requires i < |children|
    ensures SizeAll(children[..i + 1]) == SizeAll(children[..i]) + Size(children[i])
  {
    assert children[..i + 1][..i] == children[..i];
  }

  lemma StackOneMore(stack: seq<Pending>, pending: Pending)
    ensures StackPairs(stack + [pending]) == Pairs(pending.0, pending.1) + StackPairs(stack)
    ensures StackSize(stack + [pending]) == StackSize(stack) + Size(pending.0)
  {
    assert (stack + [pending])[..|stack|] == stack;
  }

  // The visit reaches exactly the key-value pairs, each once.

  lemma {:induction false} PairsSound(n: Node, path: Path, pair: Pair)
    requires pair in Pairs(n, path)
    ensures path <= pair.0 && Find(n, pair.0[|path|..]) == Found(pair.1)
    decreases n, 0
  {
    match n
    case Branch(children) => PairsUpToSound(children, path, 16, pair);
    case Leaf(rest, value) => assert (path + rest)[|path|..] == rest;
    case Extension(rest, child) =>
      PairsSound(child, path + rest, pair);
      PrefixSum(path, rest, pair.0);
  }

  lemma {:induction false} PairsUpToSound(children: seq<Node>, path: Path, count: nat, pair: Pair)
    requires count <= |children| == 16 && pair in PairsUpTo(children, path, count)
    ensures path <= pair.0 && |path| < |pair.0| && pair.0[|path|] < count
    ensures Find(Branch(children), pair.0[|path|..]) == Found(pair.1)
    decreases children, count
  {
    if pair in Pairs(children[count - 1], path + [count - 1]) {
      PairsSound(children[count - 1], path + [count - 1], pair);
      PrefixSum(path, [count - 1], pair.0);
      assert pair.0[|path|..][0] == count - 1;
    } else {
      PairsUpToSound(children, path, count - 1, pair);
    }
  }

  lemma {:induction false} PairsComplete(n: Node, path: Path, key: Path)
    requires Find(n, key).Found?
    ensures (path + key, Find(n, key).value) in Pairs(n, path)
    decreases n, 0
  {
    match n
    case Branch(children) =>
      var i := key[0];
      PairsComplete(children[i], path + [i], key[1..]);
      assert path + [i] + key[1..] == path + key;
      PairsUpToContains(children, path, 16, i, (path + key, Find(n, key).value));
    case Leaf(rest, value) =>
    case Extension(rest, child) =>
      PairsComplete(child, path + rest, key[|rest|..]);
      SplitKey(rest, key);
      assert path + rest + key[|rest|..] == path + key;
  }

  lemma {:induction false} PairsUpToContains(children: seq<Node>, path: Path, count: nat, i: Nibble, pair: Pair)
    requires i < count <= |children| == 16 && pair in Pairs(children[i], path + [i])
    ensures pair in PairsUpTo(children, path, count)
    decreases count
  {
    if i < count - 1 {
      PairsUpToContains(children, path, count - 1, i, pair);
    }
  }

  ghost predicate KeysDiffer(pairs: seq<Pair>) {
    forall i, j :: 0 <= i < j < |pairs| ==> pairs[i].0 != pairs[j].0
  }

  lemma {:induction false} PairsDiffer(n: Node, path: Path)
    ensures KeysDiffer(Pairs(n, path))
    decreases n, 0
  {
    match n
    case Branch(children) => if |children| == 16 { PairsUpToDiffer(children, path, 16); }
    case Extension(rest, child) => PairsDiffer(child, path + rest);
    case _ =>
  }

  lemma {:induction false} PairsUpToDiffer(children: seq<Node>, path: Path, count: nat)
    requires count <= |children| == 16
    ensures KeysDiffer(PairsUpTo(children, path, count))
    decreases children, count
  {
    if count > 0 {
      var here, rest := Pairs(children[count - 1], path + [count - 1]), PairsUpTo(children, path, count - 1);
      PairsDiffer(children[count - 1], path + [count - 1]);
      PairsUpToDiffer(children, path, count - 1);
      forall i, j | 0 <= i < |here| && 0 <= j < |rest| ensures here[i].0 != rest[j].0 {
        PairsSound(children[count - 1], path + [count - 1], here[i]);
        PairsUpToSound(children, path, count - 1, rest[j]);
      }
    }
  }

  /**
   * With keys of whole bytes, the callback is called exactly once for each resolved key and its
   * value, and for nothing else.
   */
  lemma VisitsExactlyTheMap(n: Node)
    ensures KeysDiffer(Pairs(n, []))
    ensures forall key: Bytes, value ::
      (ToNibs(key), value) in Pairs(n, []) <==> Find(n, ToNibs(key)) == Found(value)
    ensures forall pair :: pair in Pairs(n, []) && |pair.0| % 2 == 0 ==> ToNibs(Pack(pair.0)) == pair.0
  {
    PairsDiffer(n, []);
    forall key: Bytes, value
      ensures (ToNibs(key), value) in Pairs(n, []) <==> Find(n, ToNibs(key)) == Found(value)
    {
      var nibs := ToNibs(key);
      if (nibs, value) in Pairs(n, []) {
        PairsSound(n, [], (nibs, value));
        assert nibs[0..] == nibs;
      }
      if Find(n, nibs) == Found(value) {
        PairsComplete(n, [], nibs);
        assert [] + nibs == nibs;
      }
    }
    forall pair | pair in Pairs(n, []) && |pair.0| % 2 == 0 ensures ToNibs(Pack(pair.0)) == pair.0 {
      ToNibsPack(pair.0);
    }
  }

  /** Tries with 32-byte keys stay within the source's limit of 64 nibbles. */
  lemma {:induction false} UniformFits(n: Node, length: nat)
    requires Canonical(n) && length <= 64 && Uniform(n, 64 - length)
    ensures PathsFit(n, length)
  {
    match n
    case Branch(children) =>
      forall i: Nibble | !children[i].Null? ensures length < 64 && PathsFit(children[i], length + 1) {
        var key := [i] + SomeKey(children[i]);
        assert key[1..] == SomeKey(children[i]);
        assert AtDepth(Find(n, key), key, 64 - length);
        forall rest ensures AtDepth(Find(children[i], rest), rest, 64 - length - 1) {
          assert ([i] + rest)[1..] == rest;
          assert AtDepth(Find(n, [i] + rest), [i] + rest, 64 - length);
        }
        UniformFits(children[i], length + 1);
      }
    case Leaf(path, _) => assert AtDepth(Find(n, path), path, 64 - length);
    case Extension(path, child) =>
      var key := path + SomeKey(child);
      assert key[|path|..] == SomeKey(child);
      assert AtDepth(Find(n, key), key, 64 - length);
      forall rest ensures AtDepth(Find(child, rest), rest, 64 - length - |path|) {
        assert (path + rest)[|path|..] == rest;
        assert AtDepth(Find(n, path + rest), path + rest, 64 - length);
      }
      UniformFits(child, length + |path|);
    case _ =>
  }
}
