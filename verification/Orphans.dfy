/** Tries built from proofs answer what was proved, and can delete what the proofs say was deleted. */
module Orphans {
  import opened Primitives
  import opened Nibbles
  import opened Rlp
  import opened Trie
  import opened TrieMap
  import opened TrieForm
  import opened NodeCodec
  import opened NodeRoundTrip
  import opened Binding
  import opened Sparse
  import opened Touched
  import opened Pruning
  import opened Resolving

  // Filing nodes by reference.

  /** The store after the nodes were inserted one by one; a later node replaces an earlier one. */
  function Filed(nodes: seq<Node>): NodeStore {
    if nodes == [] then map[]
    else
      var last := nodes[|nodes| - 1];
      Filed(nodes[..|nodes| - 1])[Ref(last) := last]
  }

  lemma {:induction false} FiledUnderRef(nodes: seq<Node>, r: Reference)
    requires r in Filed(nodes)
    ensures Ref(Filed(nodes)[r]) == r && Filed(nodes)[r] in nodes
  {
    if r != Ref(nodes[|nodes| - 1]) {
      FiledUnderRef(nodes[..|nodes| - 1], r);
    }
  }

  lemma {:induction false} EveryNodeFiled(nodes: seq<Node>, i: nat)
    requires i < |nodes|
    ensures Ref(nodes[i]) in Filed(nodes)
  {
    if i < |nodes| - 1 {
      EveryNodeFiled(nodes[..|nodes| - 1], i);
    }
  }

  /** Of several nodes with one reference the last one is filed. */
  lemma {:induction false} LastFiled(nodes: seq<Node>, i: nat)
    requires i < |nodes| && forall j :: i < j < |nodes| ==> Ref(nodes[j]) != Ref(nodes[i])
    ensures Ref(nodes[i]) in Filed(nodes) && Filed(nodes)[Ref(nodes[i])] == nodes[i]
  {
    if i < |nodes| - 1 {
      LastFiled(nodes[..|nodes| - 1], i);
    }
  }

  /** A node as it comes out of decoding: its children are hashes, or written out in full. */
  ghost predicate IsSurface(n: Node) {
    Readable(n) && !n.Digest? && Surface(n) == n
  }

  lemma {:induction false} SurfaceTwice(n: Node)
    requires Clean(n)
    ensures Surface(Surface(n)) == Surface(n)
    decreases n, 0
  {
    match n
    case Branch(children) =>
      forall i | 0 <= i < |children|
        ensures SurfaceChild(SurfaceChildren(children)[i]) == SurfaceChildren(children)[i]
      {
        SurfaceChildTwice(children[i]);
      }
      assert SurfaceChildren(SurfaceChildren(children)) == SurfaceChildren(children);
    case Extension(_, child) => SurfaceChildTwice(child);
    case _ =>
  }

  lemma {:induction false} SurfaceChildTwice(child: Node)
    requires Clean(child)
    ensures SurfaceChild(SurfaceChild(child)) == SurfaceChild(child)
    decreases child, 1
  {
    SurfaceRef(child);
    SurfaceTwice(child);
  }

  ghost predicate EncodesSome(nodes: seq<Node>, code: Bytes) {
    exists i :: 0 <= i < |nodes| && Encode(nodes[i]) == code
  }

  ghost function NodeEncodings(nodes: seq<Node>): iset<Bytes> {
    iset code | EncodesSome(nodes, code)
  }

  /** No two encodings among the nodes of the trie and the filed nodes have the same hash. */
  ghost predicate Apart(n: Node, nodes: seq<Node>) {
    NoCollision(Encodings(n) + NodeEncodings(nodes))
  }

  /** Without collisions, what is filed under a node's reference is that node. */
  lemma {:induction false} FiledGenuine(n: Node, nodes: seq<Node>)
    requires Readable(n) && Resolved(n) && Apart(n, nodes)
    requires forall i :: 0 <= i < |nodes| ==> IsSurface(nodes[i])
    ensures Genuine(n, Filed(nodes))
  {
    var store := Filed(nodes);
    if Ref(n).RefDigest? && Ref(n) in store {
      var stored := store[Ref(n)];
      FiledUnderRef(nodes, Ref(n));
      assert Encode(stored) in NodeEncodings(nodes) && Encode(n) in Encodings(n);
      assert Encode(stored) == Encode(n);
      EncodeInjective(stored, n);
    }
    match n
    case Branch(children) =>
      forall i | 0 <= i < |children| ensures Genuine(children[i], store) {
        ChildEncodings(children, i);
        FiledGenuine(children[i], nodes);
      }
    case Extension(_, child) => FiledGenuine(child, nodes);
    case _ =>
  }

  // What the proof of a key makes visible.

  ghost function Visible(nodes: seq<Node>): iset<Reference> {
    iset r: Reference | r.RefBytes? || r in Filed(nodes)
  }

  ghost predicate Includes(nodes: seq<Node>, proof: seq<Node>) {
    forall i :: 0 <= i < |proof| ==> proof[i] in nodes
  }

  lemma IncludedVisible(nodes: seq<Node>, n: Node)
    requires n in nodes
    ensures Ref(n) in Visible(nodes)
  {
    var i :| 0 <= i < |nodes| && nodes[i] == n;
    EveryNodeFiled(nodes, i);
  }

  /** Every node on the path of a key is in the key's proof, or written out in its parent. */
  lemma {:induction false} ProofVisible(n: Node, key: Path, nodes: seq<Node>)
    requires Clean(n) && Includes(nodes, ProofNodes(n, key))
    ensures forall r :: r in PathRefs(n, key) ==> r in Visible(nodes)
    decreases n, 1
  {
    if !n.Null? {
      assert ProofNodes(n, key)[0] == Surface(n);
      SurfaceEncode(n);
      IncludedVisible(nodes, Surface(n));
      match n
      case Branch(children) =>
        if key != [] && |children| == 16 && !children[key[0]].Null? {
          assert Includes(nodes, ProofBelow(children[key[0]], key[1..])) by {
            assert ProofNodes(n, key)[1..] == ProofBelow(children[key[0]], key[1..]);
            assert forall i :: 0 < i < |ProofNodes(n, key)| ==> ProofNodes(n, key)[1..][i - 1] == ProofNodes(n, key)[i];
          }
          PathBelowVisible(children[key[0]], key[1..], nodes);
        }
      case Extension(path, child) =>
        if path <= key {
          assert Includes(nodes, ProofBelow(child, key[|path|..])) by {
            assert ProofNodes(n, key)[1..] == ProofBelow(child, key[|path|..]);
            assert forall i :: 0 < i < |ProofNodes(n, key)| ==> ProofNodes(n, key)[1..][i - 1] == ProofNodes(n, key)[i];
          }
          PathBelowVisible(child, key[|path|..], nodes);
        }
      case _ =>
    }
  }

  lemma {:induction false} PathBelowVisible(child: Node, key: Path, nodes: seq<Node>)
    requires Clean(child) && Includes(nodes, ProofBelow(child, key))
    ensures forall r :: r in PathRefs(child, key) ==> r in Visible(nodes)
    decreases child, 2
  {
    if Ref(child).RefDigest? {
      ProofVisible(child, key, nodes);
    } else {
      ShortPath(child, key);
    }
  }

  /** Nodes below a node with a short encoding are written out in it. */
  lemma {:induction false} ShortPath(n: Node, key: Path)
    requires Ref(n).RefBytes?
    ensures forall r :: r in PathRefs(n, key) ==> r.RefBytes?
  {
    match n
    case Branch(children) =>
      if key != [] && |children| == 16 {
        CodeInside(ChildCodes(children), key[0]);
        ShortPath(children[key[0]], key[1..]);
      }
    case Extension(path, child) => if path <= key { ShortPath(child, key[|path|..]); }
    case _ =>
  }

  lemma {:induction false} CodeInside(codes: seq<Bytes>, i: nat)
    requires i < |codes|
    ensures |codes[i]| <= |Concat(codes)|
  {
    if i > 0 {
      CodeInside(codes[1..], i - 1);
    }
  }

  // Building a trie from proofs.

  /** What is needed of a trie and of the nodes that were filed to rebuild part of it. */
  ghost predicate Provable(n: Node, nodes: seq<Node>) {
    && Canonical(n) && Readable(n) && Resolved(n) && !n.Null?
    && (forall i :: 0 <= i < |nodes| ==> IsSurface(nodes[i]))
    && Apart(n, nodes)
    && Surface(n) in nodes
  }

  /** The part of the trie that the filed nodes show. */
  ghost function Shown(n: Node, nodes: seq<Node>): Node {
    Cut(n, KeepStored(Filed(nodes)))
  }

  /** Resolving the root node terminates, and uncovers the nodes that were filed. */
  lemma ResolveShows(n: Node, nodes: seq<Node>, fuel: nat)
    requires Provable(n, nodes) && Depth(n) <= fuel
    ensures Resolve(Surface(n), Filed(nodes), fuel) == Some(Shown(n, nodes))
    ensures Hash(Shown(n, nodes)) == Hash(n)
  {
    FiledGenuine(n, nodes);
    SurfaceEncode(n);
    IncludedVisible(nodes, Surface(n));
    ResolveUncovers(n, Filed(nodes), fuel);
    CutKeepsRef(n, KeepStored(Filed(nodes)));
  }

  /** The trie rebuilt from proofs of some keys has the full trie's root and answers for those keys. */
  lemma ProofsAnswer(n: Node, nodes: seq<Node>, fuel: nat, key: Path)
    requires Provable(n, nodes) && Depth(n) <= fuel
    requires Includes(nodes, ProofNodes(n, key))
    ensures var rebuilt := Resolve(Surface(n), Filed(nodes), fuel);
      && rebuilt.Some? && Hash(rebuilt.value) == Hash(n)
      && Find(rebuilt.value, key) == Find(n, key)
  {
    var marks, keep := Visible(nodes), KeepStored(Filed(nodes));
    ResolveShows(n, nodes, fuel);
    ProofVisible(n, key, nodes);
    NothingNeeded(n, marks);
    LookRecords(n, key, iset{}, iset{}, marks);
    CutStands(n, keep, iset{} + iset{key}, iset{}, marks);
    CutResolves(n, keep, iset{} + iset{key}, iset{}, marks, key);
    FullNotBlocked(n, key);
    StandsFind(Cut(n, keep), n, iset{}, key);
  }

  lemma {:induction false} FullNotBlocked(n: Node, key: Path)
    requires Resolved(n)
    ensures !Find(n, key).Blocked?
  {
    match n
    case Branch(children) =>
      if key != [] && |children| == 16 { FullNotBlocked(children[key[0]], key[1..]); }
    case Extension(path, child) => if path <= key { FullNotBlocked(child, key[|path|..]); }
    case _ =>
  }

  // Shortened paths.

  /** A leaf or extension with the first `i` nibbles of its path left out. */
  function Shortened(n: Node, i: nat): Node
    requires (n.Leaf? || n.Extension?) && i <= |n.path|
  {
    match n
    case Leaf(path, value) => Leaf(path[i..], value)
    case Extension(path, child) => Extension(path[i..], child)
  }

  /** `shorten_node_path`: all versions of a leaf or extension with a shorter path. */
  function Shortenings(n: Node): seq<Node> {
    if n.Leaf? || n.Extension?
    then seq(|n.path| + 1, i requires 0 <= i <= |n.path| => Shortened(n, i))
    else []
  }

  method ShortenNodePath(n: Node) returns (result: seq<Node>)
    ensures result == Shortenings(n)
    ensures |result| == if n.Leaf? || n.Extension? then |n.path| + 1 else 0
    ensures n.Leaf? ==> forall i :: 0 <= i <= |n.path| ==> result[i] == Leaf(n.path[i..], n.value)
    ensures n.Extension? ==> forall i :: 0 <= i <= |n.path| ==> result[i] == Extension(n.path[i..], n.child)
  {
    result := [];
    if n.Leaf? || n.Extension? {
      var nibs := n.path;
      for i := 0 to |nibs| + 1
        invariant result == Shortenings(n)[..i]
      {
        result := result + [if n.Leaf? then Leaf(nibs[i..], n.value) else Extension(nibs[i..], n.child)];
      }
    }
  }

  // What is left alone in a branch by a deletion.

  /** The child that takes the place of its branch when the key is deleted. */
  function Survivor(n: Node, key: Path): Option<Node> {
    match n
    case Branch(children) =>
      if key == [] || |children| != 16 || !Delete(children[key[0]], key[1..]).Changes() then None
      else
        var after := children[key[0] := Delete(children[key[0]], key[1..]).node];
        var first := FirstChild(after, 0);
        if first < 16 && FirstChild(after, first + 1) == 16 then Some(after[first])
        else Survivor(children[key[0]], key[1..])
    case Extension(path, child) => if path <= key then Survivor(child, key[|path|..]) else None
    case _ => None
  }

  /** The last node on the path of a key. */
  function Terminal(n: Node, key: Path): Node {
    match n
    case Branch(children) =>
      if key == [] || |children| != 16 || children[key[0]].Null? then n else Terminal(children[key[0]], key[1..])
    case Extension(path, child) => if path <= key then Terminal(child, key[|path|..]) else n
    case _ => n
  }

  predicate Merges(n: Node) {
    n.Leaf? || n.Extension?
  }

  lemma GraftTwice(first: Path, second: Path, n: Node)
    requires Merges(n)
    ensures Graft(first, Graft(second, n)) == Graft(first + second, n)
  {
    assert first + (second + n.path) == (first + second) + n.path;
  }

  /** After the deletion, the deleted key's path ends at the survivor, whose path only got longer. */
  lemma {:induction false} EndsAtSurvivor(n: Node, key: Path) returns (prefix: Path)
    requires Canonical(n) && Delete(n, key).Changes()
    requires Survivor(n, key).Some? && Merges(Survivor(n, key).value)
    ensures Terminal(Delete(n, key).node, key) == Graft(prefix, Survivor(n, key).value)
    ensures !Delete(n, key).node.Null?
  {
    match n
    case Branch(children) =>
      var i := key[0];
      var below := Delete(children[i], key[1..]).node;
      var after := children[i := below];
      var first := FirstChild(after, 0);
      DeleteCanonical(children[i], key[1..]);
      if FirstChild(after, first + 1) == 16 {
        var j := AnotherChild(children, i);
        assert !after[j].Null?;
        prefix := [first];
      } else {
        prefix := EndsAtSurvivor(children[i], key[1..]);
        assert Delete(n, key).node == Branch(after);
      }
    case Extension(path, child) =>
      var tail := key[|path|..];
      SplitKey(path, key);
      var below := Delete(child, tail).node;
      DeleteCanonical(child, tail);
      prefix := EndsAtSurvivor(child, tail);
      if Merges(below) {
        PrefixSum(path, below.path, key);
        if below.Leaf? || !(below.path <= tail) {
          GraftTwice(path, prefix, Survivor(n, key).value);
          prefix := path + prefix;
        }
      }
  }

  // The survivor is found again among the shortenings of the last proof node.

  lemma LongerPathLongerEncoding(prefix: Path, n: Node)
    requires Merges(n)
    ensures |Encode(n)| <= |Encode(Graft(prefix, n))|
  {
    var isLeaf := n.Leaf?;
    var short, long := EncodedPath(n.path, isLeaf), EncodedPath(prefix + n.path, isLeaf);
    LongerStringLongerCode(short, long);
    var rest := if isLeaf then EncodeString(n.value) else RefCode(Ref(n.child));
    LongerListLongerCode(EncodeString(short) + rest, EncodeString(long) + rest);
  }

  lemma LongerPathLongerCode(prefix: Path, n: Node)
    requires Merges(n) && Ref(n).RefDigest?
    ensures Ref(Graft(prefix, n)).RefDigest?
  {
    LongerPathLongerEncoding(prefix, n);
  }

  /** A node above a node that is referred to by hash is itself referred to by hash. */
  lemma {:induction false} LongBelow(n: Node, key: Path)
    requires Ref(Terminal(n, key)).RefDigest?
    ensures Ref(n).RefDigest?
  {
    match n
    case Branch(children) =>
      if key != [] && |children| == 16 && !children[key[0]].Null? {
        LongBelow(children[key[0]], key[1..]);
        CodeInside(ChildCodes(children), key[0]);
      }
    case Extension(path, child) => if path <= key { LongBelow(child, key[|path|..]); }
    case _ =>
  }

  /** The next node on the path of a key. */
  predicate IsNext(n: Node, key: Path, child: Node, tail: Path) {
    match n
    case Branch(children) =>
      key != [] && |children| == 16 && child == children[key[0]] && !child.Null? && tail == key[1..]
    case Extension(path, below) => path <= key && child == below && tail == key[|path|..]
    case _ => false
  }

  lemma ProofGoesOn(n: Node, key: Path, child: Node, tail: Path)
    requires IsNext(n, key, child, tail) && Ref(child).RefDigest?
    ensures ProofNodes(n, key) == [Surface(n)] + ProofNodes(child, tail) && Terminal(n, key) == Terminal(child, tail)
  {}

  lemma EndsBelow(n: Node, key: Path, child: Node, tail: Path)
    requires ProofNodes(n, key) == [Surface(n)] + ProofNodes(child, tail) && Terminal(n, key) == Terminal(child, tail)
    requires var proof := ProofNodes(child, tail); proof != [] && proof[|proof| - 1] == Surface(Terminal(child, tail))
    ensures var proof := ProofNodes(n, key); proof != [] && proof[|proof| - 1] == Surface(Terminal(n, key))
  {}

  /** The last node of a proof is the last node on the path, if that is referred to by hash. */
  lemma {:induction false} ProofEndsAtTerminal(n: Node, key: Path)
    requires Ref(Terminal(n, key)).RefDigest? && !n.Null?
    ensures var proof := ProofNodes(n, key); proof != [] && proof[|proof| - 1] == Surface(Terminal(n, key))
  {
    match n
    case Branch(children) =>
      if key != [] && |children| == 16 && !children[key[0]].Null? {
        LongBelow(children[key[0]], key[1..]);
        ProofEndsAtTerminal(children[key[0]], key[1..]);
        ProofGoesOn(n, key, children[key[0]], key[1..]);
        EndsBelow(n, key, children[key[0]], key[1..]);
      }
    case Extension(path, child) =>
      if path <= key {
        LongBelow(child, key[|path|..]);
        ProofEndsAtTerminal(child, key[|path|..]);
        ProofGoesOn(n, key, child, key[|path|..]);
        EndsBelow(n, key, child, key[|path|..]);
      }
    case _ =>
  }

  /** The shortenings of a grafted node include the node itself, as its surface. */
  lemma GraftShortens(prefix: Path, n: Node)
    requires Merges(n)
    ensures Surface(n) in Shortenings(Surface(Graft(prefix, n)))
  {
    var longer := Surface(Graft(prefix, n));
    assert (prefix + n.path)[|prefix|..] == n.path;
    assert Shortenings(longer)[|prefix|] == Surface(n);
  }

  /** The last node of the proof that the key is gone. */
  function LastProofNode(n: Node, key: Path): Node {
    var proof := ProofNodes(n, key);
    if proof == [] then Null else proof[|proof| - 1]
  }

  /** A node is filed with the shortenings of what it was grafted to at the end of a key's path. */
  lemma GraftFiled(n: Node, key: Path, prefix: Path, c: Node, nodes: seq<Node>)
    requires Clean(c) && Merges(c) && Ref(c).RefDigest? && !n.Null? && Terminal(n, key) == Graft(prefix, c)
    requires Includes(nodes, Shortenings(LastProofNode(n, key)))
    ensures Ref(c) in Filed(nodes)
  {
    LongerPathLongerCode(prefix, c);
    ProofEndsAtTerminal(n, key);
    GraftShortens(prefix, c);
    SurfaceEncode(c);
    IncludedVisible(nodes, Surface(c));
  }

  /** Filing those shortenings shows the survivor, unless it is a branch. */
  lemma SurvivorVisible(n: Node, key: Path, nodes: seq<Node>)
    requires Canonical(n) && Clean(n) && Delete(n, key).Changes()
    requires Survivor(n, key).Some? && Merges(Survivor(n, key).value)
    requires Clean(Survivor(n, key).value)
    requires Includes(nodes, Shortenings(LastProofNode(Delete(n, key).node, key)))
    ensures Ref(Survivor(n, key).value) in Visible(nodes)
  {
    var survivor := Survivor(n, key).value;
    if Ref(survivor).RefDigest? {
      var prefix := EndsAtSurvivor(n, key);
      GraftFiled(Delete(n, key).node, key, prefix, survivor, nodes);
    }
  }

  // Deleting from the rebuilt trie.

  lemma AliveAlone(n: Node)
    requires Canonical(n) && !n.Null?
    ensures Alive(n, iset{})
  {
    var key := SomeKey(n);
    assert Lasting(Find(n, key), key, iset{});
  }

  lemma BelowOne(key: Path, prefix: Path)
    ensures prefix <= key ==> Below(iset{key}, prefix) == iset{key[|prefix|..]}
    ensures !(prefix <= key) ==> Below(iset{key}, prefix) == iset{}
  {
    BelowAdd(iset{}, key, prefix);
    assert iset{} + iset{key} == iset{key};
    assert Below(iset{}, prefix) == iset{};
  }

  /** A child beside a deleted one: another entry remains next to it, or it survives alone. */
  lemma BesideDeleted(children: seq<Node>, key: Path, j: Nibble)
    requires Canonical(Branch(children)) && Delete(Branch(children), key).Changes()
    requires j != key[0] && !children[j].Null?
    ensures AnotherAlive(children, j, iset{key}) || Survivor(Branch(children), key) == Some(children[j])
  {
    var i, rest := key[0], key[1..];
    var below := Delete(children[i], rest).node;
    DeleteCanonical(children[i], rest);
    BelowOne(key, [i]);
    if !below.Null? {
      AliveAlone(below);
      AliveBefore(children[i], rest, iset{});
      assert iset{} + iset{rest} == iset{rest};
    } else if m: Nibble :| m != i && m != j && !children[m].Null? {
      AliveAlone(children[m]);
      BelowOne(key, [m]);
    } else {
      var after := children[i := below];
      assert FirstChild(after, 0) == j && FirstChild(after, j + 1) == 16;
    }
  }

  lemma BesideRecorded(children: seq<Node>, key: Path, j: Nibble, marks: iset<Reference>)
    requires Canonical(Branch(children)) && Delete(Branch(children), key).Changes() && j != key[0]
    requires var survivor := Survivor(Branch(children), key);
      survivor.Some? && Merges(survivor.value) ==> Ref(survivor.value) in marks
    ensures Recorded(children[j], Below(iset{key}, [j]), Below(iset{key}, [j]), marks)
    ensures AnotherAlive(children, j, iset{key}) || children[j].Branch? || Marked(children[j], marks)
  {
    BelowOne(key, [j]);
    if !children[j].Null? {
      BesideDeleted(children, key, j);
    }
  }

  /** What one deletion needs: the path of the key, and the survivor unless it is a branch. */
  lemma {:induction false} OneDropRecorded(n: Node, key: Path, marks: iset<Reference>)
    requires Canonical(n) && Delete(n, key).Changes()
    requires forall r :: r in PathRefs(n, key) ==> r in marks
    requires var survivor := Survivor(n, key);
      survivor.Some? && Merges(survivor.value) ==> Ref(survivor.value) in marks
    ensures Marked(n, marks) && RecordedBelow(n, iset{key}, iset{key}, marks)
  {
    match n
    case Branch(children) =>
      SurvivorOnPath(children, key);
      OneDropRecorded(children[key[0]], key[1..], marks);
      forall j: Nibble
        ensures Recorded(children[j], Below(iset{key}, [j]), Below(iset{key}, [j]), marks)
        ensures AnotherAlive(children, j, iset{key}) || children[j].Branch? || Marked(children[j], marks)
      {
        if j == key[0] {
          BelowOne(key, [j]);
        } else {
          BesideRecorded(children, key, j, marks);
        }
      }
    case Extension(path, child) =>
      BelowOne(key, path);
      OneDropRecorded(child, key[|path|..], marks);
    case _ =>
  }

  /** If a child is left after the deletion, the branch stays and the survivor is further down. */
  lemma SurvivorBelow(children: seq<Node>, key: Path)
    requires Canonical(Branch(children)) && Delete(Branch(children), key).Changes()
    requires !Delete(children[key[0]], key[1..]).node.Null?
    ensures Survivor(Branch(children), key) == Survivor(children[key[0]], key[1..])
  {
    var i := key[0];
    var after := children[i := Delete(children[i], key[1..]).node];
    var j := AnotherChild(children, i);
    assert !after[i].Null? && !after[j].Null?;
  }

  lemma SurvivorOnPath(children: seq<Node>, key: Path)
    requires Canonical(Branch(children)) && Delete(Branch(children), key).Changes()
    ensures var survivor := Survivor(children[key[0]], key[1..]);
      survivor == None || survivor == Survivor(Branch(children), key)
  {
    DeleteCanonical(children[key[0]], key[1..]);
    if !Delete(children[key[0]], key[1..]).node.Null? {
      SurvivorBelow(children, key);
    }
  }

  lemma {:induction false} SurvivorClean(n: Node, key: Path)
    requires Clean(n) && Canonical(n) && Delete(n, key).Changes() && Survivor(n, key).Some?
    ensures Clean(Survivor(n, key).value)
  {
    match n
    case Branch(children) =>
      var below := Delete(children[key[0]], key[1..]).node;
      if below.Null? {
        DeleteCanonical(children[key[0]], key[1..]);
        assert children[key[0]].Leaf?;
      } else {
        SurvivorBelow(children, key);
        SurvivorClean(children[key[0]], key[1..]);
      }
    case Extension(path, child) => SurvivorClean(child, key[|path|..]);
  }

  /**
   * Orphan recovery: from the proof of a key in the old trie and the shortenings of the last node
   * of the proof that the key is gone in the new trie, a trie can be rebuilt that has the old
   * root, accepts the deletion, and then has the new root; also when the survivor of the deletion
   * stays hidden because it is a branch.
   */
  lemma OrphanRecovery(n: Node, key: Path, nodes: seq<Node>, fuel: nat)
    requires Provable(n, nodes) && Depth(n) <= fuel && Find(n, key).Found?
    requires Delete(n, key).Done?
    requires Includes(nodes, ProofNodes(n, key))
    requires Includes(nodes, Shortenings(LastProofNode(Delete(n, key).node, key)))
    ensures var rebuilt := Resolve(Surface(n), Filed(nodes), fuel);
      && rebuilt.Some? && Hash(rebuilt.value) == Hash(n)
      && Delete(rebuilt.value, key).Changes()
      && Hash(Delete(rebuilt.value, key).node) == Hash(Delete(n, key).node)
  {
    var marks, keep := Visible(nodes), KeepStored(Filed(nodes));
    var rebuilt := Cut(n, keep);
    DeleteRefines(n, key);
    ResolveShows(n, nodes, fuel);
    ProofVisible(n, key, nodes);
    var survivor := Survivor(n, key);
    if survivor.Some? && Merges(survivor.value) {
      SurvivorClean(n, key);
      SurvivorVisible(n, key, nodes);
    }
    OneDropRecorded(n, key, marks);
    CutStands(n, keep, iset{key}, iset{key}, marks);
    CutResolves(n, keep, iset{key}, iset{key}, marks, key);
    FullNotBlocked(n, key);
    DeleteStands(rebuilt, n, iset{key}, key);
    StandsRef(Delete(rebuilt, key).node, Delete(n, key).node, iset{key});
  }
}
