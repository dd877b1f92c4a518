/**
 * When the cached hash of a trie is the hash without caches: exactly when no stub below the root
 * still has a short encoding in its cache. A stub with one is written shorter than its hash, and
 * this cannot be made up for anywhere else.
 */
module StaleHashes {
  import opened Primitives
  import opened Nibbles
  import opened Rlp
  import opened Trie
  import opened NodeCodec
  import opened Binding
  import opened Pruning

  /** The hash is the hash without caches. */
  ghost predicate TrueHash(n: Node) {
    Hash(n) == Hash(Reload(n))
  }

  /** Nothing that is hashed in the trie, with its caches or without, collides. */
  ghost predicate ReloadsApart(n: Node) {
    Distinguishable(n, Reload(n))
  }

  // Reloading makes no code shorter.

  lemma {:induction false} ReloadLonger(n: Node)
    requires WellFormed(n)
    ensures |Encode(n)| <= |Encode(Reload(n))|
    ensures |RefCode(Ref(n))| <= |RefCode(Ref(Reload(n)))|
    decreases n, 1
  {
    match n
    case Branch(children) =>
      forall i | 0 <= i < 16
        ensures |ChildCodes(children)[i]| <= |ChildCodes(ReloadAll(children))[i]|
      {
        ReloadLonger(children[i]);
      }
      ConcatMonotone(ChildCodes(children), ChildCodes(ReloadAll(children)));
      LongerListLongerCode(Concat(ChildCodes(children)) + [EMPTY_STRING_CODE],
                           Concat(ChildCodes(ReloadAll(children))) + [EMPTY_STRING_CODE]);
    case Extension(path, child) =>
      ReloadLonger(child);
      LongerListLongerCode(EncodeString(EncodedPath(path, false)) + RefCode(Ref(child)),
                           EncodeString(EncodedPath(path, false)) + RefCode(Ref(Reload(child))));
    case _ =>
  }

  // What must be equal for equal references.

  lemma RefOfCode(a: Node, b: Node)
    requires WellFormed(a) && WellFormed(b) && RefCode(Ref(a)) == RefCode(Ref(b))
    ensures Ref(a) == Ref(b)
  {
    assert Ref(a).RefBytes? ==> |Ref(a).bytes| < 32;
    assert Ref(b).RefBytes? ==> |Ref(b).bytes| < 32;
    if Ref(a).RefDigest? && Ref(b).RefDigest? {
      assert RefCode(Ref(a))[1..] == Ref(a).digest && RefCode(Ref(b))[1..] == Ref(b).digest;
    }
  }

  /** If the code of a branch survives reloading, so do the references of its children. */
  lemma ChildRefsSurvive(children: seq<Node>, i: nat)
    requires WellFormed(Branch(children)) && i < 16
    requires Encode(Branch(children)) == Encode(Reload(Branch(children)))
    ensures Ref(children[i]) == Ref(Reload(children[i]))
  {
    var codes, loaded := ChildCodes(children), ChildCodes(ReloadAll(children));
    ListInjective(Concat(codes) + [EMPTY_STRING_CODE], Concat(loaded) + [EMPTY_STRING_CODE]);
    DropLast(Concat(codes), Concat(loaded), EMPTY_STRING_CODE);
    forall j | 0 <= j < 16 ensures |codes[j]| <= |loaded[j]| {
      ReloadLonger(children[j]);
    }
    ConcatAligned(codes, loaded);
    assert codes[i] == loaded[i];
    ReloadWellFormed(children[i]);
    RefOfCode(children[i], Reload(children[i]));
  }

  lemma DropLast(a: Bytes, b: Bytes, last: Byte)
    requires a + [last] == b + [last]
    ensures a == b
  {
    assert (a + [last])[..|a|] == a && (b + [last])[..|b|] == b;
  }

  lemma ChildRefSurvives(path: Path, child: Node)
    requires WellFormed(child) && Encode(Extension(path, child)) == Encode(Reload(Extension(path, child)))
    ensures Ref(child) == Ref(Reload(child))
  {
    var prefix := EncodeString(EncodedPath(path, false));
    var code, loaded := RefCode(Ref(child)), RefCode(Ref(Reload(child)));
    ListInjective(prefix + code, prefix + loaded);
    assert (prefix + code)[|prefix|..] == code && (prefix + loaded)[|prefix|..] == loaded;
    ReloadWellFormed(child);
    RefOfCode(child, Reload(child));
  }

  lemma EqualCodes(n: Node)
    requires !n.Digest? && Ref(n) == Ref(Reload(n)) && ReloadsApart(n)
    ensures Encode(n) == Encode(Reload(n))
  {
    assert Encode(n) in Encodings(n) && Encode(Reload(n)) in Encodings(Reload(n));
  }

  /** A reference that survives reloading has nothing stale in it. */
  lemma {:induction false} RefSurvives(n: Node)
    requires WellFormed(n) && ReloadsApart(n) && Ref(n) == Ref(Reload(n))
    ensures Clean(n)
    decreases n
  {
    if !n.Digest? {
      EqualCodes(n);
    }
    match n
    case Branch(children) =>
      forall i | 0 <= i < 16 ensures Clean(children[i]) {
        ChildRefsSurvive(children, i);
        ChildEncodings(children, i);
        ChildEncodings(ReloadAll(children), i);
        DistinguishableBelow(n, Reload(n), children[i], Reload(children[i]));
        RefSurvives(children[i]);
      }
    case Extension(path, child) =>
      ChildRefSurvives(path, child);
      DistinguishableBelow(n, Reload(n), child, Reload(child));
      RefSurvives(child);
    case _ =>
  }

  /**
   * For every trie, however it was pruned: the cached hash is the hash without caches exactly when
   * the root is a stub, or no stub below it still has a short encoding in its cache.
   */
  lemma TrueHashIff(n: Node)
    requires WellFormed(n) && ReloadsApart(n)
    ensures TrueHash(n) <==> n.Digest? || Clean(n)
  {
    if Clean(n) {
      ReloadClean(n);
    } else if !n.Digest? && TrueHash(n) {
      assert Encode(n) in Encodings(n) && Encode(Reload(n)) in Encodings(Reload(n));
      assert KECCAK(Encode(n)) == Hash(n) && KECCAK(Encode(Reload(n))) == Hash(Reload(n));
      RefSurvives(n);
    }
  }
}
