/** The root hash commits to the contents: what two tries with the same hash can answer, they answer alike. */
module Binding {
  import opened Primitives
  import opened Nibbles
  import opened Rlp
  import opened Trie
  import opened NodeCodec
  import opened NodeRoundTrip

  /** `code` is the encoding of a resolved node of the trie. */
  ghost predicate HasEncoding(n: Node, code: Bytes) {
    match n
    case Digest(_, _) => false
    case Branch(children) => code == Encode(n) || exists i :: 0 <= i < |children| && HasEncoding(children[i], code)
    case Extension(_, child) => code == Encode(n) || HasEncoding(child, code)
    case _ => code == Encode(n)
  }

  /** The encodings of the resolved nodes of a trie. */
  ghost function Encodings(n: Node): iset<Bytes> {
    iset code | HasEncoding(n, code)
  }

  /** Every encoding has a length that fits in 64 bits. */
  predicate Sized(n: Node) {
    && |Encode(n)| < LENGTH_LIMIT
    && match n
       case Branch(children) => forall i :: 0 <= i < |children| ==> Sized(children[i])
       case Extension(_, child) => Sized(child)
       case _ => true
  }

  /** A trie as it can come from outside. */
  predicate Readable(n: Node) {
    WellFormed(n) && Clean(n) && Sized(n)
  }

  ghost predicate Distinguishable(a: Node, b: Node) {
    NoCollision(Encodings(a) + Encodings(b))
  }

  lemma DistinguishableBelow(a: Node, b: Node, a': Node, b': Node)
    requires Distinguishable(a, b)
    requires Encodings(a') <= Encodings(a) && Encodings(b') <= Encodings(b)
    ensures Distinguishable(a', b')
  {}

  lemma ChildEncodings(children: seq<Node>, i: nat)
    requires i < |children|
    ensures Encodings(children[i]) <= Encodings(Branch(children))
  {}

  /** Resolved nodes with the same reference have the same surface. */
  lemma SameSurface(a: Node, b: Node)
    requires Readable(a) && Readable(b) && !a.Digest? && !b.Digest?
    requires Ref(a) == Ref(b) && Distinguishable(a, b)
    ensures Surface(a) == Surface(b)
  {
    assert Encode(a) in Encodings(a) && Encode(b) in Encodings(b);
    assert Encode(a) == Encode(b);
    EncodeInjective(a, b);
  }

  lemma SameChildRefs(a: Node, b: Node)
    requires Readable(a) && Readable(b) && Surface(a) == Surface(b)
    ensures a.Branch? ==> b.Branch? && forall i :: 0 <= i < 16 ==> Ref(a.children[i]) == Ref(b.children[i])
    ensures a.Extension? ==> b.Extension? && a.path == b.path && Ref(a.child) == Ref(b.child)
  {
    if a.Branch? {
      forall i | 0 <= i < 16 ensures Ref(a.children[i]) == Ref(b.children[i]) {
        SurfaceRef(a.children[i]);
        SurfaceRef(b.children[i]);
        assert Surface(a).children[i] == Surface(b).children[i];
      }
    } else if a.Extension? {
      SurfaceRef(a.child);
      SurfaceRef(b.child);
    }
  }

  lemma {:induction false} RefBinds(a: Node, b: Node, key: Path)
    requires Readable(a) && Readable(b)
    requires Ref(a) == Ref(b) && Distinguishable(a, b)
    ensures !Find(a, key).Blocked? && !Find(b, key).Blocked? ==> Find(a, key) == Find(b, key)
    decreases a
  {
    if !a.Digest? && !b.Digest? {
      SameSurface(a, b);
      SameChildRefs(a, b);
      if a.Branch? && key != [] {
        ChildEncodings(a.children, key[0]);
        ChildEncodings(b.children, key[0]);
        DistinguishableBelow(a, b, a.children[key[0]], b.children[key[0]]);
        RefBinds(a.children[key[0]], b.children[key[0]], key[1..]);
      } else if a.Extension? && a.path <= key {
        DistinguishableBelow(a, b, a.child, b.child);
        RefBinds(a.child, b.child, key[|a.path|..]);
      }
    }
  }

  /** Tries with the same root hash have the same reference, or one of them is only that hash. */
  lemma SameHash(a: Node, b: Node)
    requires Readable(a) && Readable(b) && !a.Digest? && !b.Digest?
    requires Hash(a) == Hash(b) && Distinguishable(a, b)
    ensures Ref(a) == Ref(b)
  {
    assert Encode(a) in Encodings(a) && Encode(b) in Encodings(b);
    assert KECCAK(Encode(a)) == Hash(a) && KECCAK(Encode(b)) == Hash(b);
  }

  /**
   * Merkle binding: when two tries have the same root hash and no two of their node encodings
   * collide, they agree on every key that both can resolve, present or absent.
   */
  lemma MerkleBinding(a: Node, b: Node, key: Path)
    requires Readable(a) && Readable(b)
    requires Hash(a) == Hash(b) && Distinguishable(a, b)
    requires !Find(a, key).Blocked? && !Find(b, key).Blocked?
    ensures Find(a, key) == Find(b, key) && Get(a, key) == Get(b, key)
  {
    if !a.Digest? && !b.Digest? {
      SameHash(a, b);
    }
    RefBinds(a, b, key);
    GetIsFind(a, key);
    GetIsFind(b, key);
  }

  /** The source's lookup answers "no value" both for an absent key and for an unresolved path. */
  lemma {:induction false} GetIsFind(n: Node, key: Path)
    requires WellFormed(n)
    ensures Get(n, key) == match Find(n, key) case Found(value) => Some(value) case _ => None
  {
    match n
    case Branch(children) => if key != [] { GetIsFind(children[key[0]], key[1..]); }
    case Extension(path, child) => if path <= key { GetIsFind(child, key[|path|..]); }
    case _ =>
  }

  /** So "no value" does not prove absence: a hash hides the value of the leaf that it stands for. */
  lemma HashHidesValue(key: B256, value: Bytes)
    ensures var leaf := Leaf(ToNibs(key), value); var stub := Digest(Hash(leaf), None);
      && Hash(stub) == Hash(leaf)
      && Get(leaf, ToNibs(key)) == Some(value) && Get(stub, ToNibs(key)) == None
  {}

  /** No unresolved nodes at all. */
  predicate Resolved(n: Node) {
    match n
    case Branch(children) => forall i :: 0 <= i < |children| ==> Resolved(children[i])
    case Extension(_, child) => Resolved(child)
    case Digest(_, _) => false
    case _ => true
  }

  /** Fully resolved nodes with the same reference are the same trie. */
  lemma {:induction false} FullBinding(a: Node, b: Node)
    requires Readable(a) && Readable(b) && Resolved(a) && Resolved(b)
    requires Ref(a) == Ref(b) && Distinguishable(a, b)
    ensures a == b
    decreases a
  {
    SameSurface(a, b);
    SameChildRefs(a, b);
    if a.Branch? {
      forall i | 0 <= i < 16 ensures a.children[i] == b.children[i] {
        ChildEncodings(a.children, i);
        ChildEncodings(b.children, i);
        DistinguishableBelow(a, b, a.children[i], b.children[i]);
        FullBinding(a.children[i], b.children[i]);
      }
      assert a.children == b.children;
    } else if a.Extension? {
      DistinguishableBelow(a, b, a.child, b.child);
      FullBinding(a.child, b.child);
    }
  }
}
