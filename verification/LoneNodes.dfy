/**
 * What a deletion leaves alone in its branch, and where it goes. If the proofs of the deleted keys
 * after the deletions were filed, a sparse trie shows everything that the deletions merge.
 */
module LoneNodes {
  import opened Primitives
  import opened Trie
  import opened TrieMap
  import opened TrieForm
  import opened TrieHistory
  import opened NodeCodec
  import opened Binding
  import opened Sparse
  import opened SparseRuns
  import opened Touched
  import opened Pruning
  import opened Resolving
  import opened Orphans

  // Where a lone entry ends up.

  /** The entries behind a place are those of one node behind a nibble. */
  ghost predicate OnlyBehind(n: Node, place: Path, i: Nibble, c: Node) {
    forall rest :: Find(n, place + rest) == Find(Graft([i], c), rest)
  }

  /**
   * If all that a canonical trie has behind a place is a leaf or an extension under one nibble, then
   * every other key through that place ends at that node, whose path has only got longer.
   */
  lemma {:induction false} EndsAtLone(n: Node, place: Path, i: Nibble, c: Node, rest: Path) returns (prefix: Path)
    requires Canonical(n) && Canonical(c) && Merges(c) && OnlyBehind(n, place, i, c)
    requires !([i] <= rest)
    ensures Terminal(n, place + rest) == Graft(prefix, c)
    decreases n
  {
    if place == [] {
      assert [] + rest == rest;
      LoneAtRoot(n, i, c);
      prefix := [i];
    } else {
      LoneNotEmpty(n, place, i, c);
      match n
      case Branch(children) =>
        assert (place + rest)[1..] == place[1..] + rest;
        LoneBelow(children, place, i, c);
        prefix := EndsAtLone(children[place[0]], place[1..], i, c, rest);
      case Extension(path, child) =>
        if path <= place {
          assert (place + rest)[|path|..] == place[|path|..] + rest;
          LoneBeyond(path, child, place, i, c);
          prefix := EndsAtLone(child, place[|path|..], i, c, rest);
        } else {
          LoneOnPath(n, place, i, c);
          GraftTwice(place, [i], c);
          NotOnPath(path, place, i, rest);
          prefix := place + [i];
        }
      case Leaf(_, _) =>
        LoneOnPath(n, place, i, c);
        GraftTwice(place, [i], c);
        prefix := place + [i];
      case _ =>
    }
  }

  lemma LoneAtRoot(n: Node, i: Nibble, c: Node)
    requires Canonical(n) && Canonical(c) && Merges(c) && OnlyBehind(n, [], i, c)
    ensures n == Graft([i], c)
  {
    forall key ensures Find(n, key) == Find(Graft([i], c), key) {
      assert [] + key == key;
    }
    GraftCanonical([i], c);
    CanonicalUnique(n, Graft([i], c));
  }

  lemma LoneNotEmpty(n: Node, place: Path, i: Nibble, c: Node)
    requires Canonical(c) && Merges(c) && OnlyBehind(n, place, i, c)
    ensures !n.Null? && !n.Digest?
    ensures Merges(n) ==> n.path <= place || (place <= n.path && |place| < |n.path|)
    ensures n.Leaf? ==> place <= n.path
    ensures n.Branch? && place != [] && |n.children| == 16 ==> !n.children[place[0]].Null?
  {
    GraftCanonical([i], c);
    var some := SomeKey(Graft([i], c));
    assert Find(n, place + some) != Missing;
    assert Find(n, place + []) == Find(Graft([i], c), []) == Missing;
    if Merges(n) {
      EntriesBehind(n, place + some);
    }
    if n.Branch? && place != [] && |n.children| == 16 {
      assert (place + some)[0] == place[0];
      assert Find(n, place + some) == Find(n.children[place[0]], (place + some)[1..]);
    }
  }

  lemma LoneBelow(children: seq<Node>, place: Path, i: Nibble, c: Node)
    requires |children| == 16 && place != [] && OnlyBehind(Branch(children), place, i, c)
    ensures OnlyBehind(children[place[0]], place[1..], i, c)
  {
    forall rest ensures Find(children[place[0]], place[1..] + rest) == Find(Graft([i], c), rest) {
      assert (place + rest)[1..] == place[1..] + rest;
      assert Find(Branch(children), place + rest) == Find(Graft([i], c), rest);
    }
  }

  lemma LoneBeyond(path: Path, child: Node, place: Path, i: Nibble, c: Node)
    requires path <= place && OnlyBehind(Extension(path, child), place, i, c)
    ensures OnlyBehind(child, place[|path|..], i, c)
  {
    forall rest ensures Find(child, place[|path|..] + rest) == Find(Graft([i], c), rest) {
      assert (place + rest)[|path|..] == place[|path|..] + rest;
      assert Find(Extension(path, child), place + rest) == Find(Graft([i], c), rest);
    }
  }

  lemma GraftShortened(n: Node, i: nat)
    requires Merges(n) && i <= |n.path|
    ensures Graft(n.path[..i], Shortened(n, i)) == n
  {
    assert n.path[..i] + n.path[i..] == n.path;
  }

  lemma ShortenedBehind(n: Node, place: Path, i: Nibble, c: Node)
    requires Merges(n) && place <= n.path && OnlyBehind(n, place, i, c)
    ensures OnlyBehind(Shortened(n, |place|), [], i, c)
  {
    var short := Shortened(n, |place|);
    GraftShortened(n, |place|);
    assert n.path[..|place|] == place;
    forall rest ensures Find(short, [] + rest) == Find(Graft([i], c), rest) {
      GraftFind(place, short, place + rest);
      assert [] + rest == rest && (place + rest)[|place|..] == rest;
      assert Find(n, place + rest) == Find(Graft([i], c), rest);
    }
  }

  lemma NotOnPath(path: Path, place: Path, i: Nibble, rest: Path)
    requires place + [i] <= path && !([i] <= rest)
    ensures !(path <= place + rest)
  {
    assert (place + [i])[|place|] == i && path[|place|] == i;
    assert rest != [] ==> (place + rest)[|place|] == rest[0];
  }

  lemma ShortenedCanonical(n: Node, i: nat)
    requires Canonical(n) && Merges(n) && i <= |n.path| && (n.Extension? ==> i < |n.path|)
    ensures Canonical(Shortened(n, i))
  {}

  /** The place is inside the path of a leaf or extension. */
  lemma LoneOnPath(n: Node, place: Path, i: Nibble, c: Node)
    requires Canonical(n) && Canonical(c) && Merges(n) && Merges(c) && OnlyBehind(n, place, i, c)
    requires place <= n.path && (n.Extension? ==> |place| < |n.path|)
    ensures n == Graft(place, Graft([i], c)) && place + [i] <= n.path
  {
    ShortenedBehind(n, place, i, c);
    ShortenedCanonical(n, |place|);
    LoneAtRoot(Shortened(n, |place|), i, c);
    LongerAgain(n, place, i, c);
  }

  lemma LongerAgain(n: Node, place: Path, i: Nibble, c: Node)
    requires Merges(n) && Merges(c) && place <= n.path && Shortened(n, |place|) == Graft([i], c)
    ensures n == Graft(place, Graft([i], c)) && place + [i] <= n.path
  {
    GraftShortened(n, |place|);
    assert n.path[..|place|] == place;
    assert (place + [i]) + c.path == n.path;
  }

  // What is hidden is not filed.

  ghost predicate UnfiledLookup(found: Lookup, store: NodeStore) {
    found.Blocked? && found.stub.Digest? ==> found.stub.residue.None? && RefDigest(found.stub.digest) !in store
  }

  ghost predicate HidesUnfiled(n: Node, store: NodeStore) {
    forall key :: UnfiledLookup(Find(n, key), store)
  }

  lemma {:induction false} ShownUnfiled(n: Node, store: NodeStore, key: Path)
    requires Resolved(n)
    ensures UnfiledLookup(Find(Cut(n, KeepStored(store)), key), store)
    decreases n
  {
    if !n.Null? && KeepStored(store)(n) {
      match n
      case Branch(children) =>
        if key != [] && |children| == 16 {
          ShownUnfiled(children[key[0]], store, key[1..]);
        }
      case Extension(path, child) =>
        if path <= key {
          ShownUnfiled(child, store, key[|path|..]);
        }
      case _ =>
    }
  }

  /** Updates make nothing unresolved. */
  lemma RunUnfiled(n: Node, ops: seq<Op>, store: NodeStore)
    requires Canonical(n) && Run(n, ops).Some? && HidesUnfiled(n, store)
    ensures HidesUnfiled(Run(n, ops).value, store)
  {
    RunRefines(n, ops);
    forall key ensures UnfiledLookup(Find(Run(n, ops).value, key), store) {
      if Find(Run(n, ops).value, key).Blocked? {
        OutcomeBlocked(Find(n, key), ops, key);
      }
      assert UnfiledLookup(Find(n, key), store);
    }
  }

  // Deleting from a sparse trie.

  ghost predicate At(top: Node, place: Path, n: Node) {
    forall rest :: Find(top, place + rest) == Find(n, rest)
  }

  /** What the last nodes of the proofs of the deleted keys, in the trie after the deletions, lead to is filed. */
  ghost predicate OrphansFiled(after: Node, gone: iset<Path>, nodes: seq<Node>) {
    forall key :: key in gone ==> Includes(nodes, Shortenings(LastProofNode(after, key)))
  }

  /** The sparse trie shows what is filed, and the paths of the keys that are to be deleted. */
  ghost predicate ShowsFiled(sparse: Node, gone: iset<Path>, nodes: seq<Node>) {
    HidesUnfiled(sparse, Filed(nodes)) && forall key :: key in gone ==> !Find(sparse, key).Blocked?
  }

  /** A node that the deletions leave alone in its branch is filed. */
  lemma LoneFiled(after: Node, place: Path, i: Nibble, c: Node, rest: Path, nodes: seq<Node>)
    requires Canonical(after) && Canonical(c) && Clean(c) && Merges(c) && Ref(c).RefDigest?
    requires OnlyBehind(after, place, i, c) && !([i] <= rest)
    requires Includes(nodes, Shortenings(LastProofNode(after, place + rest)))
    ensures Ref(c) in Filed(nodes)
  {
    var prefix := EndsAtLone(after, place, i, c, rest);
    LoneNotEmpty(after, place, i, c);
    GraftFiled(after, place + rest, prefix, c, nodes);
  }

  /** Beside the only child that lasts there is a key that is deleted. */
  lemma DeletedBeside(f: seq<Node>, i: Nibble, deletable: iset<Path>) returns (key: Path)
    requires Canonical(Branch(f)) && !AnotherAlive(f, i, deletable)
    ensures !([i] <= key) && key in deletable
  {
    var j := AnotherChild(f, i);
    var rest := SomeKey(f[j]);
    key := [j] + rest;
    assert key[0] == j;
    assert !Alive(f[j], Below(deletable, [j]));
    assert !Lasting(Find(f[j], rest), rest, Below(deletable, [j]));
  }

  /** After the deletions nothing is left of a branch but the only child that lasts. */
  lemma LoneAfter(
      full: Node, f: seq<Node>, place: Path, i: Nibble, gone: iset<Path>, after: Node)
    requires Canonical(Branch(f)) && At(full, place, Branch(f)) && Deleted(full, gone, after)
    requires !AnotherAlive(f, i, Below(gone, place))
    requires forall key :: key in gone ==> !(place + [i] <= key)
    ensures OnlyBehind(after, place, i, f[i])
  {
    forall rest ensures Find(after, place + rest) == Find(Graft([i], f[i]), rest) {
      GraftFind([i], f[i], rest);
      assert Find(full, place + rest) == Find(Branch(f), rest);
      if rest != [] {
        PrefixSum(place, [i], place + rest);
        assert (place + rest)[|place|..] == rest && rest == [rest[0]] + rest[1..];
        if rest[0] != i {
          var j := rest[0];
          assert !Alive(f[j], Below(Below(gone, place), [j]));
          assert !Lasting(Find(f[j], rest[1..]), rest[1..], Below(Below(gone, place), [j]));
        }
      }
    }
  }

  /** So a child that is hidden, and not a branch, is never left alone. */
  lemma HiddenNotLone(
      sparse: Node, full: Node, place: Path, s: seq<Node>, f: seq<Node>, i: Nibble,
      gone: iset<Path>, after: Node, nodes: seq<Node>)
    requires |s| == 16 && Canonical(Branch(f)) && Clean(Branch(f)) && Canonical(after)
    requires At(sparse, place, Branch(s)) && At(full, place, Branch(f))
    requires Brittle(s[i], f[i]) && Ref(s[i]) == Ref(f[i])
    requires Deleted(full, gone, after) && OrphansFiled(after, gone, nodes) && ShowsFiled(sparse, gone, nodes)
    ensures AnotherAlive(f, i, Below(gone, place))
  {
    NothingDeletedBehind(sparse, place, s, i, gone);
    HiddenUnfiled(sparse, place + [i], s[i], nodes);
    if !AnotherAlive(f, i, Below(gone, place)) {
      LoneAfter(full, f, place, i, gone, after);
      LoneChildFiled(f, place, i, gone, after, nodes);
    }
  }

  lemma LoneChildFiled(f: seq<Node>, place: Path, i: Nibble, gone: iset<Path>, after: Node, nodes: seq<Node>)
    requires Canonical(Branch(f)) && Canonical(after) && Clean(f[i]) && Merges(f[i]) && Ref(f[i]).RefDigest?
    requires !AnotherAlive(f, i, Below(gone, place)) && OnlyBehind(after, place, i, f[i])
    requires OrphansFiled(after, gone, nodes)
    ensures Ref(f[i]) in Filed(nodes)
  {
    var rest := DeletedBeside(f, i, Below(gone, place));
    assert place + rest in gone;
    LoneFiled(after, place, i, f[i], rest, nodes);
  }

  lemma HiddenUnfiled(sparse: Node, key: Path, stub: Node, nodes: seq<Node>)
    requires HidesUnfiled(sparse, Filed(nodes)) && stub.Digest? && Find(sparse, key) == Blocked(stub, [])
    ensures Ref(stub).RefDigest? && Ref(stub) !in Filed(nodes)
  {
    assert UnfiledLookup(Find(sparse, key), Filed(nodes));
  }

  /** No key that is deleted runs through a hidden node. */
  lemma NothingDeletedBehind(sparse: Node, place: Path, s: seq<Node>, i: Nibble, gone: iset<Path>)
    requires |s| == 16 && s[i].Digest? && At(sparse, place, Branch(s))
    requires forall key :: key in gone ==> !Find(sparse, key).Blocked?
    ensures Find(sparse, place + [i]) == Blocked(s[i], [])
    ensures forall key :: key in gone ==> !(place + [i] <= key)
  {
    assert Find(Branch(s), [i]) == Find(s[i], []) == Blocked(s[i], []);
    assert Find(sparse, place + [i]) == Blocked(s[i], []);
    forall key | key in gone ensures !(place + [i] <= key) {
      if place + [i] <= key {
        BlockedThrough(sparse, place + [i], key);
      }
    }
  }

  /** A sparse trie that stands for another without deletions does so with these deletions. */
  lemma {:induction false} DeletableStands(
      sparse: Node, full: Node, place: Path, s: Node, f: Node, gone: iset<Path>, after: Node, nodes: seq<Node>)
    requires Canonical(f) && Clean(f) && Stands(s, f, iset{}) && Canonical(after)
    requires At(sparse, place, s) && At(full, place, f)
    requires Deleted(full, gone, after) && OrphansFiled(after, gone, nodes) && ShowsFiled(sparse, gone, nodes)
    ensures Stands(s, f, Below(gone, place))
    decreases s
  {
    match s
    case Branch(children) =>
      forall i: Nibble
        ensures Stands(children[i], f.children[i], Below(Below(gone, place), [i]))
        ensures Brittle(children[i], f.children[i]) ==> AnotherAlive(f.children, i, Below(gone, place))
      {
        assert Below(iset{}, [i]) == iset{};
        BelowTwice(gone, place, [i]);
        AtChild(sparse, place, children, i);
        AtChild(full, place, f.children, i);
        DeletableStands(sparse, full, place + [i], children[i], f.children[i], gone, after, nodes);
        if Brittle(children[i], f.children[i]) {
          StandsRef(children[i], f.children[i], iset{});
          HiddenNotLone(sparse, full, place, children, f.children, i, gone, after, nodes);
        }
      }
    case Extension(path, child) =>
      assert Below(iset{}, path) == iset{};
      BelowTwice(gone, place, path);
      AtBehind(sparse, place, path, child);
      AtBehind(full, place, path, f.child);
      DeletableStands(sparse, full, place + path, child, f.child, gone, after, nodes);
    case _ =>
  }

  lemma AtChild(top: Node, place: Path, children: seq<Node>, i: Nibble)
    requires |children| == 16 && At(top, place, Branch(children))
    ensures At(top, place + [i], children[i])
  {
    forall rest ensures Find(top, (place + [i]) + rest) == Find(children[i], rest) {
      assert (place + [i]) + rest == place + ([i] + rest);
      assert ([i] + rest)[1..] == rest;
      assert Find(top, place + ([i] + rest)) == Find(Branch(children), [i] + rest);
    }
  }

  lemma AtBehind(top: Node, place: Path, path: Path, child: Node)
    requires At(top, place, Extension(path, child))
    ensures At(top, place + path, child)
  {
    forall rest ensures Find(top, (place + path) + rest) == Find(child, rest) {
      assert (place + path) + rest == place + (path + rest);
      assert (path + rest)[|path|..] == rest;
      assert Find(top, place + (path + rest)) == Find(Extension(path, child), path + rest);
    }
  }
}
