/** The checks that the client makes of a witness before it runs a block on it. */
module WitnessDb {
  import opened Primitives
  import opened Nibbles
  import opened Trie
  import opened NodeCodec
  import opened Binding
  import opened StateMap
  import opened Aggregation
  import opened WitnessTries

  datatype ClientError =
    | NoParent  // the panic of indexing into an empty list of headers
    | MismatchedStateRoot
    | UnreadableAccount  // the panic on an account that does not decode
    | MismatchedStorageRoot
    | InvalidHeaders

  /** The storage root that the state trie claims for an address; the empty root if there is no account. */
  function ClaimedRoot(accounts: Node, address: B256): Option<B256> {
    match Get(accounts, ToNibs(address))
    case None => Some(EmptyRoot())
    case Some(value) => RootIn(value)
  }

  ghost predicate StoragesMatch(state: State, addresses: set<B256>) {
    forall a :: a in addresses && a in state.storages ==>
      ClaimedRoot(state.accounts, a) == Some(Hash(state.storages[a]))
  }

  /** The account names the trie's root; if there is no account, the trie has the root of the empty trie. */
  ghost predicate HasRootOf(accounts: Node, a: B256, trie: Node) {
    match Get(accounts, ToNibs(a))
    case None => Hash(trie) == KECCAK([0x80])
    case Some(code) => DecodeAccount(code).Some? && DecodeAccount(code).value.storageRoot == Hash(trie)
  }

  /** The witness conforms to the header of the parent block, and the headers are a chain. */
  ghost predicate Conforms(state: State, input: AggregationInput) {
    && input.ancestors != []
    && Hash(state.accounts) == input.ancestors[0].stateRoot
    && StoragesMatch(state, state.storages.Keys)
    && Chained(input, |input.ancestors|)
  }

  predicate LastWithHash(codes: seq<Bytes>, i: nat)
    requires i < |codes|
  {
    forall j :: i < j < |codes| ==> KECCAK(codes[j]) != KECCAK(codes[i])
  }

  /** The codes by their hashes. */
  function CodesByHash(codes: seq<Bytes>): map<B256, Bytes> {
    if codes == [] then map[]
    else
      var last := codes[|codes| - 1];
      CodesByHash(codes[..|codes| - 1])[KECCAK(last) := last]
  }

  /** Every hash leads to a code that has it. */
  lemma {:induction false} CodesGenuine(codes: seq<Bytes>, hash: B256)
    requires hash in CodesByHash(codes)
    ensures CodesByHash(codes)[hash] in codes && KECCAK(CodesByHash(codes)[hash]) == hash
  {
    if hash != KECCAK(codes[|codes| - 1]) {
      CodesGenuine(codes[..|codes| - 1], hash);
    }
  }

  /** Of several codes with one hash the last one counts. */
  lemma {:induction false} LastCodeCounts(codes: seq<Bytes>, i: nat)
    requires i < |codes|
    ensures KECCAK(codes[i]) in CodesByHash(codes)
    ensures LastWithHash(codes, i) ==> CodesByHash(codes)[KECCAK(codes[i])] == codes[i]
  {
    var front := codes[..|codes| - 1];
    if i < |front| {
      LastCodeCounts(front, i);
      assert LastWithHash(codes, i) ==> LastWithHash(front, i);
    }
  }

  /** Without collisions the code of every hash is found. */
  lemma CodeFound(codes: seq<Bytes>, i: nat)
    requires i < |codes| && NoCollision(iset code | code in codes)
    ensures KECCAK(codes[i]) in CodesByHash(codes) && CodesByHash(codes)[KECCAK(codes[i])] == codes[i]
  {
    LastCodeCounts(codes, i);
    CodesGenuine(codes, KECCAK(codes[i]));
    var found := CodesByHash(codes)[KECCAK(codes[i])];
    assert found in codes && codes[i] in codes && KECCAK(found) == KECCAK(codes[i]);
  }

  /** What the database is made of, beside the tries. */
  datatype Opened = Opened(blockHashes: map<U64, B256>, codes: map<B256, Bytes>)

  /** The checks; what comes out are the block hashes and the codes. */
  method OpenWitness(state: State, input: AggregationInput, codes: seq<Bytes>)
      returns (result: Result<Opened, ClientError>)
    ensures result.Success? <==> Conforms(state, input)
    ensures result.Success? ==> result.value == Opened(HashesOf(input.ancestors), CodesByHash(codes))
    ensures result.Success? <==>
      && input.ancestors != [] && Hash(state.accounts) == input.ancestors[0].stateRoot
      && (forall a :: a in state.storages ==> HasRootOf(state.accounts, a, state.storages[a]))
      && IsChain(input)
  {
    ChainedIff(input);
    if input.ancestors == [] {
      return Failure(NoParent);
    }
    if Hash(state.accounts) != input.ancestors[0].stateRoot {
      return Failure(MismatchedStateRoot);
    }
    var error := CheckStorages(state);
    if error.Some? {
      return Failure(error.value);
    }
    var hashes := CheckHeaders(input);
    if hashes.None? {
      return Failure(InvalidHeaders);
    }
    result := Success(Opened(hashes.value, CodesByHash(codes)));
  }

  method CheckStorages(state: State) returns (error: Option<ClientError>)
    ensures error.None? <==> StoragesMatch(state, state.storages.Keys)
  {
    var remaining := state.storages.Keys;
    while remaining != {}
      invariant remaining <= state.storages.Keys
      invariant StoragesMatch(state, state.storages.Keys - remaining)
      decreases remaining
    {
      var a :| a in remaining;
      var claimed := ClaimedRoot(state.accounts, a);
      if claimed.None? {
        return Some(UnreadableAccount);
      }
      if claimed.value != Hash(state.storages[a]) {
        return Some(MismatchedStorageRoot);
      }
      remaining := remaining - {a};
    }
    error := None;
  }

  // What the checks are worth.

  ghost predicate EncodesNode(state: State, code: Bytes) {
    HasEncoding(state.accounts, code) || exists a :: a in state.storages && HasEncoding(state.storages[a], code)
  }

  ghost function StateEncodings(state: State): iset<Bytes> {
    iset code | EncodesNode(state, code)
  }

  /** No two encodings of nodes of the two states have the same hash. */
  ghost predicate StatesApart(s: State, t: State) {
    NoCollision(StateEncodings(s) + StateEncodings(t))
  }

  lemma AccountsApart(s: State, t: State)
    requires StatesApart(s, t)
    ensures Distinguishable(s.accounts, t.accounts)
  {
    assert Encodings(s.accounts) <= StateEncodings(s) && Encodings(t.accounts) <= StateEncodings(t);
  }

  lemma StoragesApart(s: State, t: State, a: B256)
    requires StatesApart(s, t) && a in s.storages && a in t.storages
    ensures Distinguishable(s.storages[a], t.storages[a])
  {
    assert Encodings(s.storages[a]) <= StateEncodings(s) && Encodings(t.storages[a]) <= StateEncodings(t);
  }

  ghost predicate ReadableState(state: State) {
    Readable(state.accounts) && forall a :: a in state.storages ==> Readable(state.storages[a])
  }

  ghost predicate Agree(a: Lookup, b: Lookup) {
    a.Blocked? || b.Blocked? || a == b
  }

  /**
   * Without collisions, two witnesses that conform to the same headers cannot contradict each
   * other: whatever both can resolve, accounts and storage slots, is the same in both.
   */
  lemma WitnessesAgree(s: State, t: State, input: AggregationInput, a: B256, slot: B256)
    requires Conforms(s, input) && Conforms(t, input)
    requires ReadableState(s) && ReadableState(t)
    requires StatesApart(s, t)
    requires !Find(s.accounts, ToNibs(a)).Blocked? && !Find(t.accounts, ToNibs(a)).Blocked?
    ensures Find(s.accounts, ToNibs(a)) == Find(t.accounts, ToNibs(a))
    ensures a in s.storages && a in t.storages ==>
      && Hash(s.storages[a]) == Hash(t.storages[a])
      && Agree(Find(s.storages[a], ToNibs(slot)), Find(t.storages[a], ToNibs(slot)))
  {
    AccountsApart(s, t);
    MerkleBinding(s.accounts, t.accounts, ToNibs(a));
    if a in s.storages && a in t.storages {
      StoragesApart(s, t, a);
      if !Find(s.storages[a], ToNibs(slot)).Blocked? && !Find(t.storages[a], ToNibs(slot)).Blocked? {
        MerkleBinding(s.storages[a], t.storages[a], ToNibs(slot));
      }
    }
  }

  /** The lookups, which answer "no value" at an unresolved node, agree exactly if both are resolved or find nothing. */
  ghost predicate ReadAlike(s: Node, t: Node, key: Path) {
    Get(s, key) == Get(t, key) <==> BothResolve(s, t, key) || (Get(s, key).None? && Get(t, key).None?)
  }

  ghost predicate BothResolve(s: Node, t: Node, key: Path) {
    !Find(s, key).Blocked? && !Find(t, key).Blocked?
  }

  lemma AgreeReadAlike(s: Node, t: Node, key: Path)
    requires WellFormed(s) && WellFormed(t) && Agree(Find(s, key), Find(t, key))
    ensures ReadAlike(s, t, key)
  {
    GetIsFind(s, key);
    GetIsFind(t, key);
  }

  /**
   * So the client, which reads with that lookup, gets the same account from two witnesses that
   * conform to the same headers exactly when both resolve it or neither has a value, and then the
   * same slots of it on the same condition.
   */
  lemma WitnessesReadAlike(s: State, t: State, input: AggregationInput, a: B256, slot: B256)
    requires Conforms(s, input) && Conforms(t, input)
    requires ReadableState(s) && ReadableState(t)
    requires StatesApart(s, t)
    ensures ReadAlike(s.accounts, t.accounts, ToNibs(a))
    ensures BothResolve(s.accounts, t.accounts, ToNibs(a)) && a in s.storages && a in t.storages ==>
      ReadAlike(s.storages[a], t.storages[a], ToNibs(slot))
  {
    if BothResolve(s.accounts, t.accounts, ToNibs(a)) {
      WitnessesAgree(s, t, input, a, slot);
      if a in s.storages && a in t.storages {
        AgreeReadAlike(s.storages[a], t.storages[a], ToNibs(slot));
      }
    }
    AgreeReadAlike(s.accounts, t.accounts, ToNibs(a));
  }

  /** For example the bare state root conforms whenever some state does, and has no account at all. */
  lemma BareRootConforms(s: State, input: AggregationInput, a: B256)
    requires Conforms(s, input)
    ensures var bare := State(Digest(Hash(s.accounts), None), map[]);
      Conforms(bare, input) && Get(bare.accounts, ToNibs(a)) == None
  {}
}
