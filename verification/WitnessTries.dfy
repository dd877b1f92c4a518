/** The state trie and the storage tries built from the nodes of an execution witness, and validated. */
module WitnessTries {
  import opened Primitives
  import opened Nibbles
  import opened Trie
  import opened TrieHistory
  import opened NodeCodec
  import opened NodeRoundTrip
  import opened Binding
  import opened Sparse
  import opened Touched
  import opened Pruning
  import opened Resolving
  import opened Orphans
  import opened Traversal
  import opened StateMap

  /** The errors and panics of the source. `OutOfFuel` stands for a recursion that does not end. */
  datatype WitnessFailure =
    | MalformedNode
    | OutOfFuel
    | PathTooLong
    | MalformedAccount
    | WrongKeyLength
    | StorageUnresolved
    | StateRootMismatch
    | StorageRootMismatch

  /** The decoded nodes by the hash of their bytes, and by reference. */
  datatype Index = Index(byHash: map<B256, Node>, store: NodeStore)

  predicate AllDecode(codes: seq<Bytes>) {
    forall i :: 0 <= i < |codes| ==> Decode(codes[i]).Success?
  }

  function Decoded(codes: seq<Bytes>): (nodes: seq<Node>)
    requires AllDecode(codes)
    ensures |nodes| == |codes| && forall i :: 0 <= i < |codes| ==> nodes[i] == Decode(codes[i]).value
  {
    seq(|codes|, i requires 0 <= i < |codes| => Decode(codes[i]).value)
  }

  function Hashed(codes: seq<Bytes>): map<B256, Node>
    requires AllDecode(codes)
  {
    if codes == [] then map[]
    else
      var last := codes[|codes| - 1];
      Hashed(codes[..|codes| - 1])[KECCAK(last) := Decode(last).value]
  }

  // The steps.

  /** Decodes all nodes. The root is the node whose bytes have the root's hash. */
  method IndexNodes(codes: seq<Bytes>, root: B256) returns (index: Option<Index>, rootNode: Option<Node>)
    ensures index.Some? <==> AllDecode(codes)
    ensures index.Some? ==> index.value == Index(Hashed(codes), Filed(Decoded(codes)))
    ensures index.Some? ==> rootNode == if root in Hashed(codes) then Some(Hashed(codes)[root]) else None
  {
    var byHash: map<B256, Node>, store: NodeStore := map[], map[];
    rootNode := None;
    for i := 0 to |codes|
      invariant Indexed(codes[..i], byHash, store)
      invariant rootNode == if root in byHash then Some(byHash[root]) else None
    {
      var node := Decode(codes[i]);
      if node.Failure? {
        return None, None;
      }
      IndexedOneMore(codes[..i], byHash, store, codes[i]);
      assert codes[..i + 1] == codes[..i] + [codes[i]];
      var hash := KECCAK(codes[i]);
      if hash == root {
        rootNode := Some(node.value);
      }
      byHash, store := byHash[hash := node.value], store[Ref(node.value) := node.value];
    }
    assert codes[..|codes|] == codes;
    index := Some(Index(byHash, store));
  }

  ghost predicate Indexed(codes: seq<Bytes>, byHash: map<B256, Node>, store: NodeStore) {
    AllDecode(codes) && byHash == Hashed(codes) && store == Filed(Decoded(codes))
  }

  lemma IndexedOneMore(codes: seq<Bytes>, byHash: map<B256, Node>, store: NodeStore, code: Bytes)
    requires Indexed(codes, byHash, store) && Decode(code).Success?
    ensures var node := Decode(code).value;
      Indexed(codes + [code], byHash[KECCAK(code) := node], store[Ref(node) := node])
  {
    HashedOneMore(codes, code);
    FiledNext(Decoded(codes), Decode(code).value);
    assert Decoded(codes + [code]) == Decoded(codes) + [Decode(code).value];
  }

  lemma HashedOneMore(codes: seq<Bytes>, code: Bytes)
    requires AllDecode(codes) && Decode(code).Success?
    ensures AllDecode(codes + [code])
    ensures Hashed(codes + [code]) == Hashed(codes)[KECCAK(code) := Decode(code).value]
  {
    assert (codes + [code])[..|codes|] == codes;
  }

  lemma FiledNext(nodes: seq<Node>, node: Node)
    ensures Filed(nodes + [node]) == Filed(nodes)[Ref(node) := node]
  {
    assert (nodes + [node])[..|nodes|] == nodes;
  }

  /** The bytes of a path; an odd last nibble is padded. */
  function PackKey(nibs: Path): Bytes {
    Pack(if |nibs| % 2 == 0 then nibs else nibs + [0])
  }

  lemma PackKeyForm(nibs: Path, i: nat)
    requires 2 * i < |nibs|
    ensures i < |PackKey(nibs)|
    ensures TwoNibs(PackKey(nibs)[i], nibs[2 * i], if 2 * i + 1 < |nibs| then nibs[2 * i + 1] else 0)
  {
    PackAt(if |nibs| % 2 == 0 then nibs else nibs + [0], i);
  }

  predicate PairReads(pair: Pair) {
    |PackKey(pair.0)| == 32 && RootIn(pair.1).Some?
  }

  /** The storage roots of all accounts in the state trie. */
  method StorageRoots(pairs: seq<Pair>) returns (roots: Result<seq<(B256, B256)>, WitnessFailure>)
    ensures roots.Success? <==> forall i :: 0 <= i < |pairs| ==> PairReads(pairs[i])
    ensures roots.Success? ==>
      && |roots.value| == |pairs|
      && forall i :: 0 <= i < |pairs| ==> roots.value[i] == (PackKey(pairs[i].0), RootIn(pairs[i].1).value)
  {
    var found: seq<(B256, B256)> := [];
    for i := 0 to |pairs|
      invariant |found| == i
      invariant forall j :: 0 <= j < i ==>
        PairReads(pairs[j]) && found[j] == (PackKey(pairs[j].0), RootIn(pairs[j].1).value)
    {
      var key, root := PackKey(pairs[i].0), RootIn(pairs[i].1);
      if root.None? {
        return Failure(MalformedAccount);
      }
      if |key| != 32 {
        return Failure(WrongKeyLength);
      }
      found := found + [(key, root.value)];
    }
    roots := Success(found);
  }

  /** A storage root whose trie can be built, if the witness has its root node. */
  ghost predicate Buildable(index: Index, root: B256, fuel: nat) {
    root in index.byHash ==>
      var trie := Resolve(index.byHash[root], index.store, fuel);
      trie.Some? && !trie.value.Digest?
  }

  /** The trie was built for one of the accounts. */
  ghost predicate BuiltFrom(roots: seq<(B256, B256)>, index: Index, fuel: nat, address: B256, trie: Node) {
    exists i :: 0 <= i < |roots| && roots[i].0 == address && roots[i].1 in index.byHash
      && Resolve(index.byHash[roots[i].1], index.store, fuel) == Some(trie)
  }

  method BuildStorages(roots: seq<(B256, B256)>, index: Index, fuel: nat)
    returns (result: Result<map<B256, Node>, WitnessFailure>)
    ensures result.Success? <==> forall i :: 0 <= i < |roots| ==> Buildable(index, roots[i].1, fuel)
    ensures result.Success? ==>
      && (forall a :: a in result.value ==> BuiltFrom(roots, index, fuel, a, result.value[a]))
      && forall i :: 0 <= i < |roots| && roots[i].1 in index.byHash ==> roots[i].0 in result.value
  {
    var storages: map<B256, Node> := map[];
    for i := 0 to |roots|
      invariant forall j :: 0 <= j < i ==> Buildable(index, roots[j].1, fuel)
      invariant forall a :: a in storages ==> BuiltFrom(roots, index, fuel, a, storages[a])
      invariant forall j :: 0 <= j < i && roots[j].1 in index.byHash ==> roots[j].0 in storages
    {
      var (address, root) := roots[i];
      if root in index.byHash {
        var trie := Resolve(index.byHash[root], index.store, fuel);
        if trie.None? {
          return Failure(OutOfFuel);
        }
        if trie.value.Digest? {
          return Failure(StorageUnresolved);
        }
        assert BuiltFrom(roots, index, fuel, address, trie.value);
        storages := storages[address := trie.value];
      }
    }
    result := Success(storages);
  }

  /** The account is in the state trie and has the root of the given storage trie. */
  ghost predicate Anchored(accounts: Node, address: B256, trie: Node) {
    var value := Get(accounts, ToNibs(address));
    && value.Some? && DecodeAccount(value.value).Some?
    && DecodeAccount(value.value).value.storageRoot == Hash(trie)
  }

  method ValidateStorages(accounts: Node, storages: map<B256, Node>) returns (ok: bool)
    ensures ok <==> forall a :: a in storages ==> Anchored(accounts, a, storages[a])
  {
    var remaining := storages.Keys;
    while remaining != {}
      invariant remaining <= storages.Keys
      invariant forall a :: a in storages.Keys - remaining ==> Anchored(accounts, a, storages[a])
      decreases remaining
    {
      var a :| a in remaining;
      var value := Get(accounts, ToNibs(a));
      if value.None? || RootIn(value.value) != Some(Hash(storages[a])) {
        return false;
      }
      remaining := remaining - {a};
    }
    ok := true;
  }

  /** The state trie and the storage tries are what the root stands for. */
  ghost predicate Validated(state: State, root: B256) {
    && Hash(state.accounts) == root
    && forall a :: a in state.storages ==> Anchored(state.accounts, a, state.storages[a])
  }

  /**
   * Builds the tries of a witness. Whatever comes out is validated. If the witness is genuine, the
   * tries come out, and they are the full state's as far as the witness shows it.
   */
  method BuildValidatedTries(codes: seq<Bytes>, root: B256, fuel: nat, ghost full: State)
    returns (result: Result<State, WitnessFailure>)
    ensures result.Success? ==> Validated(result.value, root) && Hash(result.value.accounts) == root
    ensures GenuineWitness(codes, root, fuel, full) ==> result.Success? && Reveals(result.value, full, codes)
  {
    ghost var genuine := GenuineWitness(codes, root, fuel, full);
    var index, rootNode := IndexNodes(codes, root);
    if index.None? {
      return Failure(MalformedNode);
    }
    var start := if rootNode.Some? then rootNode.value else Digest(root, None);
    var accounts := Resolve(start, index.value.store, fuel);
    if genuine {
      AccountsRebuilt(codes, root, fuel, full);
    }
    if accounts.None? {
      return Failure(OutOfFuel);
    }
    if !PathsFit(accounts.value, 0) {
      return Failure(PathTooLong);
    }
    var pairs := ForEachLeaves(accounts.value);
    if genuine {
      AllAccountsRead(codes, root, fuel, full);
    }
    var roots := StorageRoots(pairs);
    if roots.Failure? {
      return Failure(roots.error);
    }
    if genuine {
      StoragesBuildable(codes, root, fuel, full, roots.value);
    }
    var storages := BuildStorages(roots.value, index.value, fuel);
    if storages.Failure? {
      return Failure(storages.error);
    }
    if Hash(accounts.value) != root {
      return Failure(StateRootMismatch);
    }
    if genuine {
      StoragesRevealed(codes, root, fuel, full, roots.value, storages.value);
    }
    var ok := ValidateStorages(accounts.value, storages.value);
    if !ok {
      return Failure(StorageRootMismatch);
    }
    result := Success(State(accounts.value, storages.value));
  }

  // Genuine witnesses.

  /** The codes are what decoding them and encoding the result gives. */
  ghost predicate GenuineCodes(codes: seq<Bytes>) {
    forall i :: 0 <= i < |codes| ==>
      && Decode(codes[i]).Success?
      && IsSurface(Decode(codes[i]).value) && Encode(Decode(codes[i]).value) == codes[i]
  }

  /** A full trie that a witness may show parts of. */
  ghost predicate Showable(n: Node, fuel: nat) {
    Canonical(n) && Readable(n) && Resolved(n) && Depth(n) <= fuel
  }

  ghost predicate InState(full: State, codes: seq<Bytes>, code: Bytes) {
    || code in codes || HasEncoding(full.accounts, code)
    || exists a :: a in full.storages && HasEncoding(full.storages[a], code)
  }

  /** The encodings of all nodes of the state, and those in the witness. */
  ghost function AllEncodings(full: State, codes: seq<Bytes>): iset<Bytes> {
    iset code | InState(full, codes, code)
  }

  /** Every account has a storage trie, of which it holds the root. */
  ghost predicate AccountsLinked(full: State) {
    forall a: B256 :: Find(full.accounts, ToNibs(a)).Found? ==>
      a in full.storages && RootIn(Find(full.accounts, ToNibs(a)).value) == Some(Hash(full.storages[a]))
  }

  ghost predicate GenuineWitness(codes: seq<Bytes>, root: B256, fuel: nat, full: State) {
    && GenuineCodes(codes)
    && Showable(full.accounts, fuel) && Uniform(full.accounts, 64) && !full.accounts.Null?
    && (forall a :: a in full.storages ==> Showable(full.storages[a], fuel))
    && AccountsLinked(full)
    && root == Hash(full.accounts) && Encode(full.accounts) in codes
    && NoCollision(AllEncodings(full, codes))
  }

  /** The part of a trie that the witness shows. */
  ghost function Rebuilt(n: Node, codes: seq<Bytes>): Node
    requires GenuineCodes(codes)
  {
    if n.Null? then Null else Shown(n, Decoded(codes))
  }

  /** The tries are the full state's, as far as the witness shows them; a storage trie is there if its root is. */
  ghost predicate Reveals(state: State, full: State, codes: seq<Bytes>)
    requires GenuineCodes(codes)
  {
    && state.accounts == Rebuilt(full.accounts, codes)
    && (forall a :: a in state.storages ==>
          a in full.storages && state.storages[a] == Rebuilt(full.storages[a], codes))
    && forall a :: Find(state.accounts, ToNibs(a)).Found? && a in full.storages && Encode(full.storages[a]) in codes ==>
         a in state.storages
  }

  lemma {:induction false} HashedFrom(codes: seq<Bytes>, hash: B256)
    requires AllDecode(codes) && hash in Hashed(codes)
    ensures exists i :: 0 <= i < |codes| && KECCAK(codes[i]) == hash && Hashed(codes)[hash] == Decode(codes[i]).value
  {
    var last := |codes| - 1;
    if KECCAK(codes[last]) != hash {
      HashedFrom(codes[..last], hash);
      var i :| 0 <= i < last && KECCAK(codes[..last][i]) == hash
        && Hashed(codes[..last])[hash] == Decode(codes[..last][i]).value;
      assert codes[i] == codes[..last][i];
    }
  }

  lemma {:induction false} HashedHas(codes: seq<Bytes>, i: nat)
    requires AllDecode(codes) && i < |codes|
    ensures KECCAK(codes[i]) in Hashed(codes)
  {
    if i < |codes| - 1 {
      HashedHas(codes[..|codes| - 1], i);
    }
  }

  /** A trie of the full state. */
  ghost predicate IsTrieOf(n: Node, full: State) {
    n == full.accounts || exists a :: a in full.storages && full.storages[a] == n
  }

  /** Without collisions, what is found under the hash of a trie is the surface of its root. */
  lemma RootFound(n: Node, codes: seq<Bytes>, root: B256, fuel: nat, full: State)
    requires GenuineWitness(codes, root, fuel, full) && IsTrieOf(n, full)
    ensures Hash(n) in Hashed(codes) <==> Encode(n) in codes
    ensures Hash(n) in Hashed(codes) ==> Hashed(codes)[Hash(n)] == Surface(n)
  {
    assert Showable(n, fuel);
    HashIsKeccak(n);
    if Hash(n) in Hashed(codes) {
      HashedFrom(codes, Hash(n));
      var i :| 0 <= i < |codes| && KECCAK(codes[i]) == Hash(n) && Hashed(codes)[Hash(n)] == Decode(codes[i]).value;
      assert HasEncoding(n, Encode(n));
      assert codes[i] in AllEncodings(full, codes) && Encode(n) in AllEncodings(full, codes);
      DecodeEncode(n);
    }
    if Encode(n) in codes {
      var i :| 0 <= i < |codes| && codes[i] == Encode(n);
      HashedHas(codes, i);
    }
  }

  /** Its trie is rebuilt as far as the witness shows it. */
  lemma TrieRebuilt(n: Node, codes: seq<Bytes>, root: B256, fuel: nat, full: State)
    requires GenuineWitness(codes, root, fuel, full) && IsTrieOf(n, full) && Encode(n) in codes
    ensures Resolve(Surface(n), Filed(Decoded(codes)), fuel) == Some(Rebuilt(n, codes))
    ensures Hash(Rebuilt(n, codes)) == Hash(n) && !Rebuilt(n, codes).Digest?
    ensures !n.Null? ==> Provable(n, Decoded(codes))
  {
    assert Showable(n, fuel);
    if !n.Null? {
      TrieProvable(n, codes, root, fuel, full);
      ResolveShows(n, Decoded(codes), fuel);
      SurfaceEncode(n);
      IncludedVisible(Decoded(codes), Surface(n));
    }
  }

  lemma TrieProvable(n: Node, codes: seq<Bytes>, root: B256, fuel: nat, full: State)
    requires GenuineWitness(codes, root, fuel, full) && IsTrieOf(n, full) && Encode(n) in codes && !n.Null?
    ensures Provable(n, Decoded(codes))
  {
    assert Showable(n, fuel);
    var i :| 0 <= i < |codes| && codes[i] == Encode(n);
    DecodeEncode(n);
    assert Decoded(codes)[i] == Surface(n);
    TrieApart(n, codes, root, fuel, full);
  }

  lemma TrieApart(n: Node, codes: seq<Bytes>, root: B256, fuel: nat, full: State)
    requires GenuineWitness(codes, root, fuel, full) && IsTrieOf(n, full)
    ensures Apart(n, Decoded(codes))
  {
    var nodes := Decoded(codes);
    forall code | code in Encodings(n) + NodeEncodings(nodes) ensures code in AllEncodings(full, codes) {
      if EncodesSome(nodes, code) {
        var i :| 0 <= i < |nodes| && Encode(nodes[i]) == code;
        assert codes[i] == code;
      }
    }
  }

  lemma AccountsRebuilt(codes: seq<Bytes>, root: B256, fuel: nat, full: State)
    requires GenuineWitness(codes, root, fuel, full)
    ensures root in Hashed(codes) && AllDecode(codes)
    ensures Resolve(Hashed(codes)[root], Filed(Decoded(codes)), fuel) == Some(Rebuilt(full.accounts, codes))
    ensures Hash(Rebuilt(full.accounts, codes)) == root && PathsFit(Rebuilt(full.accounts, codes), 0)
  {
    RootFound(full.accounts, codes, root, fuel, full);
    TrieRebuilt(full.accounts, codes, root, fuel, full);
    UniformFits(full.accounts, 0);
    CutFits(full.accounts, KeepStored(Filed(Decoded(codes))), 0);
  }

  lemma {:induction false} CutFits(n: Node, keep: Node -> bool, length: nat)
    requires PathsFit(n, length)
    ensures PathsFit(Cut(n, keep), length)
  {
    match n
    case Branch(children) =>
      if keep(n) {
        forall i | 0 <= i < 16 && !Cut(children[i], keep).Null?
          ensures length < 64 && PathsFit(Cut(children[i], keep), length + 1)
        {
          CutFits(children[i], keep, length + 1);
        }
      }
    case Extension(path, child) => if keep(n) { CutFits(child, keep, length + |path|); }
    case _ =>
  }

  /** What is found in the rebuilt trie is found in the full one. */
  lemma RebuiltFinds(n: Node, codes: seq<Bytes>, key: Path)
    requires GenuineCodes(codes) && Canonical(n) && Clean(n) && Find(Rebuilt(n, codes), key).Found?
    ensures Find(n, key) == Find(Rebuilt(n, codes), key)
  {
    if !n.Null? {
      var keep := KeepStored(Filed(Decoded(codes)));
      NothingNeeded(n, iset{});
      CutStands(n, keep, iset{}, iset{}, iset{});
      StandsFind(Cut(n, keep), n, iset{}, key);
    }
  }

  /** Every account that the witness shows can be read. */
  lemma AccountReads(codes: seq<Bytes>, root: B256, fuel: nat, full: State, pair: Pair)
    requires GenuineWitness(codes, root, fuel, full) && pair in Pairs(Rebuilt(full.accounts, codes), [])
    ensures PairReads(pair) && ToNibs(PackKey(pair.0)) == pair.0
    ensures Find(Rebuilt(full.accounts, codes), pair.0) == Found(pair.1)
    ensures PackKey(pair.0) in full.storages && RootIn(pair.1) == Some(Hash(full.storages[PackKey(pair.0)]))
  {
    PairsSound(Rebuilt(full.accounts, codes), [], pair);
    assert pair.0[0..] == pair.0;
    RebuiltFinds(full.accounts, codes, pair.0);
    assert AtDepth(Find(full.accounts, pair.0), pair.0, 64);
    ToNibsPack(pair.0);
  }

  lemma AllAccountsRead(codes: seq<Bytes>, root: B256, fuel: nat, full: State)
    requires GenuineWitness(codes, root, fuel, full)
    ensures var pairs := Pairs(Rebuilt(full.accounts, codes), []);
      forall i :: 0 <= i < |pairs| ==> PairReads(pairs[i])
  {
    var pairs := Pairs(Rebuilt(full.accounts, codes), []);
    forall i | 0 <= i < |pairs| ensures PairReads(pairs[i]) {
      AccountReads(codes, root, fuel, full, pairs[i]);
    }
  }

  /** The storage roots are those of the accounts that the witness shows. */
  ghost predicate RootsOf(roots: seq<(B256, B256)>, pairs: seq<Pair>) {
    && |roots| == |pairs|
    && forall i :: 0 <= i < |pairs| ==>
         PairReads(pairs[i]) && roots[i] == (PackKey(pairs[i].0), RootIn(pairs[i].1).value)
  }

  lemma StorageBuildable(
      codes: seq<Bytes>, root: B256, fuel: nat, full: State, roots: seq<(B256, B256)>, i: nat)
    requires GenuineWitness(codes, root, fuel, full)
    requires RootsOf(roots, Pairs(Rebuilt(full.accounts, codes), [])) && i < |roots|
    ensures roots[i].0 in full.storages && roots[i].1 == Hash(full.storages[roots[i].0])
    ensures roots[i].1 in Hashed(codes) <==> Encode(full.storages[roots[i].0]) in codes
    ensures roots[i].1 in Hashed(codes) ==>
      Resolve(Hashed(codes)[roots[i].1], Filed(Decoded(codes)), fuel)
        == Some(Rebuilt(full.storages[roots[i].0], codes))
    ensures Buildable(Index(Hashed(codes), Filed(Decoded(codes))), roots[i].1, fuel)
  {
    AccountReads(codes, root, fuel, full, Pairs(Rebuilt(full.accounts, codes), [])[i]);
    var storage := full.storages[roots[i].0];
    RootFound(storage, codes, root, fuel, full);
    if Encode(storage) in codes {
      TrieRebuilt(storage, codes, root, fuel, full);
    }
  }

  lemma StoragesBuildable(codes: seq<Bytes>, root: B256, fuel: nat, full: State, roots: seq<(B256, B256)>)
    requires GenuineWitness(codes, root, fuel, full)
    requires RootsOf(roots, Pairs(Rebuilt(full.accounts, codes), []))
    ensures forall i :: 0 <= i < |roots| ==>
      Buildable(Index(Hashed(codes), Filed(Decoded(codes))), roots[i].1, fuel)
  {
    forall i | 0 <= i < |roots| ensures Buildable(Index(Hashed(codes), Filed(Decoded(codes))), roots[i].1, fuel) {
      StorageBuildable(codes, root, fuel, full, roots, i);
    }
  }

  /** The storage tries that were built are validated, and are the full state's. */
  lemma StoragesRevealed(
      codes: seq<Bytes>, root: B256, fuel: nat, full: State, roots: seq<(B256, B256)>, storages: map<B256, Node>)
    requires GenuineWitness(codes, root, fuel, full)
    requires RootsOf(roots, Pairs(Rebuilt(full.accounts, codes), []))
    requires var index := Index(Hashed(codes), Filed(Decoded(codes)));
      && (forall a :: a in storages ==> BuiltFrom(roots, index, fuel, a, storages[a]))
      && forall i :: 0 <= i < |roots| && roots[i].1 in index.byHash ==> roots[i].0 in storages
    ensures forall a :: a in storages ==> Anchored(Rebuilt(full.accounts, codes), a, storages[a])
    ensures Reveals(State(Rebuilt(full.accounts, codes), storages), full, codes)
  {
    var accounts := Rebuilt(full.accounts, codes);
    var pairs := Pairs(accounts, []);
    forall a | a in storages
      ensures a in full.storages && storages[a] == Rebuilt(full.storages[a], codes)
      ensures Anchored(accounts, a, storages[a])
    {
      StorageRevealed(codes, root, fuel, full, roots, a, storages[a]);
    }
    forall a | Find(accounts, ToNibs(a)).Found? && a in full.storages && Encode(full.storages[a]) in codes
      ensures a in storages
    {
      PairsComplete(accounts, [], ToNibs(a));
      assert [] + ToNibs(a) == ToNibs(a);
      var i :| 0 <= i < |pairs| && pairs[i] == (ToNibs(a), Find(accounts, ToNibs(a)).value);
      AccountReads(codes, root, fuel, full, pairs[i]);
      ToNibsInjective(a, roots[i].0);
      StorageBuildable(codes, root, fuel, full, roots, i);
    }
  }

  lemma StorageRevealed(
      codes: seq<Bytes>, root: B256, fuel: nat, full: State, roots: seq<(B256, B256)>, a: B256, trie: Node)
    requires GenuineWitness(codes, root, fuel, full)
    requires RootsOf(roots, Pairs(Rebuilt(full.accounts, codes), []))
    requires BuiltFrom(roots, Index(Hashed(codes), Filed(Decoded(codes))), fuel, a, trie)
    ensures a in full.storages && trie == Rebuilt(full.storages[a], codes)
    ensures Anchored(Rebuilt(full.accounts, codes), a, trie)
  {
    var accounts := Rebuilt(full.accounts, codes);
    var i :| 0 <= i < |roots| && roots[i].0 == a && roots[i].1 in Hashed(codes)
      && Resolve(Hashed(codes)[roots[i].1], Filed(Decoded(codes)), fuel) == Some(trie);
    StorageBuildable(codes, root, fuel, full, roots, i);
    TrieRebuilt(full.storages[a], codes, root, fuel, full);
    AccountReads(codes, root, fuel, full, Pairs(accounts, [])[i]);
    TrieRebuilt(full.accounts, codes, root, fuel, full);
    CutWellFormed(full.accounts, KeepStored(Filed(Decoded(codes))));
    GetIsFind(accounts, ToNibs(a));
  }

  /** The rebuilt trie answers every key whose proof is in the witness. */
  lemma RebuiltAnswers(n: Node, codes: seq<Bytes>, root: B256, fuel: nat, full: State, key: Path)
    requires GenuineWitness(codes, root, fuel, full) && IsTrieOf(n, full) && Encode(n) in codes
    requires Includes(Decoded(codes), ProofNodes(n, key))
    ensures Find(Rebuilt(n, codes), key) == Find(n, key)
  {
    TrieRebuilt(n, codes, root, fuel, full);
    if !n.Null? {
      ResolveShows(n, Decoded(codes), fuel);
      ProofsAnswer(n, Decoded(codes), fuel, key);
    }
  }
}
