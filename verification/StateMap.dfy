/** The two-level state as a value: what applying a post-state to it means. */
module StateMap {
  import opened Primitives
  import opened Nibbles
  import opened Rlp
  import opened Trie
  import opened TrieHistory
  import opened NodeCodec

  datatype Account = Account(nonce: nat, balance: nat, codeHash: B256)

  /** Changed slots of one account; zero means that the slot is removed. */
  datatype HashedStorage = HashedStorage(wiped: bool, storage: map<B256, nat>)

  /** The changes of a block or subblock, by hashed address; `None` means that the account is removed. */
  datatype HashedPostState = HashedPostState(
    accounts: map<B256, Option<Account>>,
    storages: map<B256, HashedStorage>)

  /** The state trie and the storage tries by hashed address. */
  datatype State = State(accounts: Node, storages: map<B256, Node>)

  /** An account as the state trie holds it: with the root of its storage trie. */
  function EncodeAccount(account: Account, storageRoot: B256): Bytes {
    EncodeList(EncodeUint(account.nonce) + (EncodeUint(account.balance)
      + (EncodeString(storageRoot) + EncodeString(account.codeHash))))
  }

  /** An account as it is read from the state trie. */
  datatype TrieAccount = TrieAccount(nonce: nat, balance: nat, storageRoot: B256, codeHash: B256)

  /** A number of at most so many bytes, without leading zeros. */
  function ReadUint(code: Bytes, limit: nat): Option<nat> {
    match ReadItem(code)
    case Some(Item(false, digits, _)) =>
      if |digits| > limit || (digits != [] && digits[0] == 0) then None else Some(FromBigEndian(digits))
    case _ => None
  }

  function ReadWord(code: Bytes): Option<B256> {
    match ReadItem(code)
    case Some(Item(false, word, _)) => if |word| == 32 then Some(word) else None
    case _ => None
  }

  /** The four fields of an encoded account; `None` if one of them, or their list, does not decode. */
  function DecodeAccount(code: Bytes): Option<TrieAccount> {
    match ReadItem(code)
    case Some(Item(true, payload, _)) =>
      var items := Split(payload);
      if items.None? || |items.value| != 4 then None
      else
        var nonce, balance := ReadUint(items.value[0], 8), ReadUint(items.value[1], 32);
        var root, codeHash := ReadWord(items.value[2]), ReadWord(items.value[3]);
        if nonce.None? || balance.None? || root.None? || codeHash.None? then None
        else Some(TrieAccount(nonce.value, balance.value, root.value, codeHash.value))
    case _ => None
  }

  /** The storage root in an encoded account. */
  function RootIn(code: Bytes): Option<B256> {
    match DecodeAccount(code)
    case Some(account) => Some(account.storageRoot)
    case None => None
  }

  function StorageOf(diff: HashedPostState, address: B256): HashedStorage {
    if address in diff.storages then diff.storages[address] else HashedStorage(false, map[])
  }

  /** A missing storage trie counts as an empty one. */
  function TrieOf(state: State, address: B256): Node {
    if address in state.storages then state.storages[address] else Null
  }

  lemma SameStates(a: State, b: State)
    requires a.accounts == b.accounts && a.storages.Keys == b.storages.Keys
    requires forall address :: address in a.storages ==> a.storages[address] == b.storages[address]
    ensures a == b
  {}

  // The shape of a state.

  /** Tries in canonical form whose keys are 32 bytes long. */
  ghost predicate HashedTrie(n: Node) {
    Canonical(n) && Uniform(n, 64)
  }

  ghost predicate WellShaped(state: State) {
    && HashedTrie(state.accounts)
    && forall a :: a in state.storages ==> HashedTrie(state.storages[a])
  }

  // What applying a post-state means.

  function SlotOp(slot: B256, value: nat): Op {
    if value == 0 then Remove(ToNibs(slot)) else Put(ToNibs(slot), EncodeUint(value))
  }

  ghost predicate IsKeyOf(keys: set<B256>, path: Path) {
    exists key :: key in keys && ToNibs(key) == path
  }

  /** `after` is the storage trie `before` with the given slots changed: wiped first if need be. */
  ghost predicate StorageApplied(before: Node, storage: HashedStorage, slots: set<B256>, after: Node)
    requires slots <= storage.storage.Keys
  {
    && (forall slot :: slot in slots ==>
          var value := storage.storage[slot];
          Find(after, ToNibs(slot)) == if value == 0 then Missing else Found(EncodeUint(value)))
    && (forall path :: !IsKeyOf(slots, path) ==>
          Find(after, path) == Find(if storage.wiped then Null else before, path))
  }

  /** What the state trie says about a changed account. */
  ghost predicate AccountApplied(before: State, diff: HashedPostState, address: B256, after: State)
    requires address in diff.accounts
  {
    match diff.accounts[address]
    case Some(account) =>
      && address in after.storages
      && StorageApplied(TrieOf(before, address), StorageOf(diff, address),
                        StorageOf(diff, address).storage.Keys, after.storages[address])
      && Find(after.accounts, ToNibs(address)) == Found(EncodeAccount(account, Hash(after.storages[address])))
    case None =>
      && Find(after.accounts, ToNibs(address)) == Missing
      && SameStorage(before, address, after)
  }

  ghost predicate SameStorage(before: State, address: B256, after: State) {
    && (address in after.storages <==> address in before.storages)
    && TrieOf(after, address) == TrieOf(before, address)
  }

  /** `after` is `before` with the changes of the given accounts, and nothing else, applied. */
  ghost predicate Applied(before: State, diff: HashedPostState, addresses: set<B256>, after: State)
    requires addresses <= diff.accounts.Keys
  {
    && WellShaped(after)
    && (forall a :: a in addresses ==> AccountApplied(before, diff, a, after))
    && (forall a :: a !in addresses ==> SameStorage(before, a, after))
    && (forall path :: !IsKeyOf(addresses, path) ==> Find(after.accounts, path) == Find(before.accounts, path))
  }

  /** The changes meet no unresolved node. */
  ghost predicate Resolvable(state: State, diff: HashedPostState) {
    forall a :: a in diff.accounts ==> AccountResolvable(state, diff, a)
  }

  ghost predicate AccountResolvable(state: State, diff: HashedPostState, address: B256)
    requires address in diff.accounts
  {
    && !Find(state.accounts, ToNibs(address)).Blocked?
    && (diff.accounts[address].Some? ==>
          StorageResolvable(TrieOf(state, address), StorageOf(diff, address)))
  }

  ghost predicate StorageResolvable(n: Node, storage: HashedStorage) {
    storage.wiped || forall slot :: slot in storage.storage ==> !Find(n, ToNibs(slot)).Blocked?
  }

  // The result does not depend on any order.

  lemma StorageDetermined(before: Node, storage: HashedStorage, a: Node, b: Node)
    requires HashedTrie(a) && HashedTrie(b)
    requires StorageApplied(before, storage, storage.storage.Keys, a)
    requires StorageApplied(before, storage, storage.storage.Keys, b)
    ensures a == b
  {
    forall path ensures Find(a, path) == Find(b, path) {
      if IsKeyOf(storage.storage.Keys, path) {
        var slot :| slot in storage.storage.Keys && ToNibs(slot) == path;
      }
    }
    CanonicalUnique(a, b);
  }

  /**
   * A missing storage trie is taken for an empty one. That is right exactly when the storage is
   * wiped, or every slot of the storage that is missing is among the changed ones.
   */
  lemma MissingTrieIff(missing: Node, storage: HashedStorage, right: Node, fromEmpty: Node)
    requires HashedTrie(right) && HashedTrie(fromEmpty)
    requires StorageApplied(missing, storage, storage.storage.Keys, right)
    requires StorageApplied(Null, storage, storage.storage.Keys, fromEmpty)
    ensures fromEmpty == right <==>
      storage.wiped || forall path :: Find(missing, path) != Missing ==> IsKeyOf(storage.storage.Keys, path)
  {
    if storage.wiped {
      StorageDetermined(missing, storage, right, fromEmpty);
    } else if forall path :: Find(missing, path) != Missing ==> IsKeyOf(storage.storage.Keys, path) {
      AllOverwritten(missing, storage, right, fromEmpty);
    } else {
      var path :| Find(missing, path) != Missing && !IsKeyOf(storage.storage.Keys, path);
      assert Find(fromEmpty, path) == Missing;
    }
  }

  lemma AllOverwritten(missing: Node, storage: HashedStorage, right: Node, fromEmpty: Node)
    requires HashedTrie(right) && HashedTrie(fromEmpty) && !storage.wiped
    requires StorageApplied(missing, storage, storage.storage.Keys, right)
    requires StorageApplied(Null, storage, storage.storage.Keys, fromEmpty)
    requires forall path :: Find(missing, path) != Missing ==> IsKeyOf(storage.storage.Keys, path)
    ensures fromEmpty == right
  {
    forall path ensures Find(fromEmpty, path) == Find(right, path) {
      if IsKeyOf(storage.storage.Keys, path) {
        var slot :| slot in storage.storage.Keys && ToNibs(slot) == path;
      }
    }
    CanonicalUnique(fromEmpty, right);
  }

  lemma OneSlot(slot: B256, value: nat) returns (n: Node)
    requires value > 0
    ensures n == Leaf(ToNibs(slot), EncodeUint(value)) && HashedTrie(n)
    ensures StorageApplied(Null, HashedStorage(false, map[slot := value]), {slot}, n)
  {
    n := Leaf(ToNibs(slot), EncodeUint(value));
    assert IsKeyOf({slot}, ToNibs(slot)) by {
      assert slot in {slot};
    }
  }

  /**
   * For example a storage trie with one slot that is missing while another slot is changed: what
   * is right has both slots, and what starts from the empty trie has only the changed one.
   */
  lemma MissingTrieWrong(kept: B256, changed: B256, before: nat, value: nat)
      returns (missing: Node, right: Node, fromEmpty: Node)
    requires kept != changed && before > 0 && value > 0
    ensures HashedTrie(missing) && HashedTrie(right) && HashedTrie(fromEmpty)
    ensures var storage := HashedStorage(false, map[changed := value]);
      && StorageApplied(missing, storage, storage.storage.Keys, right)
      && StorageApplied(Null, storage, storage.storage.Keys, fromEmpty)
    ensures Find(right, ToNibs(kept)) == Found(EncodeUint(before)) && Find(fromEmpty, ToNibs(kept)) == Missing
    ensures fromEmpty != right
  {
    var storage := HashedStorage(false, map[changed := value]);
    missing := OneSlot(kept, before);
    fromEmpty := OneSlot(changed, value);
    assert storage.storage.Keys == {changed};
    if ToNibs(kept) == ToNibs(changed) {
      ToNibsInjective(kept, changed);
    }
    var op := Put(ToNibs(changed), EncodeUint(value));
    UniformUpdates(missing, 64, op);
    ApplyRefines(missing, op);
    right := Apply(missing, op).node;
    forall path | !IsKeyOf({changed}, path) ensures path != op.key {
      assert changed in {changed};
    }
    assert StorageApplied(missing, storage, {changed}, right);
  }

  /** Applying the same changes in whatever order gives the same state. */
  lemma UpdateDetermined(before: State, diff: HashedPostState, a: State, b: State)
    requires Applied(before, diff, diff.accounts.Keys, a)
    requires Applied(before, diff, diff.accounts.Keys, b)
    ensures a == b
  {
    forall address
      ensures address in a.storages <==> address in b.storages
      ensures address in a.storages ==> a.storages[address] == b.storages[address]
    {
      if address in diff.accounts {
        assert AccountApplied(before, diff, address, a) && AccountApplied(before, diff, address, b);
        if diff.accounts[address].Some? {
          StorageDetermined(TrieOf(before, address), StorageOf(diff, address),
                            a.storages[address], b.storages[address]);
        }
      } else {
        assert SameStorage(before, address, a) && SameStorage(before, address, b);
      }
    }
    assert a.storages == b.storages;
    forall path ensures Find(a.accounts, path) == Find(b.accounts, path) {
      if IsKeyOf(diff.accounts.Keys, path) {
        var address :| address in diff.accounts.Keys && ToNibs(address) == path;
        assert AccountApplied(before, diff, address, a) && AccountApplied(before, diff, address, b);
      }
    }
    CanonicalUnique(a.accounts, b.accounts);
  }

  // The state after changes, by what its lookups say.

  /** The account is found with these fields, and with the root of its storage trie. */
  ghost predicate HasAccount(state: State, a: B256, account: Account) {
    && a in state.storages && Find(state.accounts, ToNibs(a)).Found?
    && DecodeAccount(Find(state.accounts, ToNibs(a)).value)
      == Some(TrieAccount(account.nonce, account.balance, Hash(state.storages[a]), account.codeHash))
  }

  /** A zero slot is missing, any other is found with its value, and the rest is as before, or gone if wiped. */
  ghost predicate HasSlots(before: Node, storage: HashedStorage, after: Node) {
    && (forall slot :: slot in storage.storage && storage.storage[slot] == 0 ==> Find(after, ToNibs(slot)) == Missing)
    && (forall slot :: slot in storage.storage && storage.storage[slot] > 0 ==>
          Find(after, ToNibs(slot)) == Found(EncodeUint(storage.storage[slot])))
    && forall path :: !IsKeyOf(storage.storage.Keys, path) ==>
         Find(after, path) == if storage.wiped then Missing else Find(before, path)
  }

  ghost predicate AccountTaken(before: State, diff: HashedPostState, a: B256, after: State)
    requires a in diff.accounts
  {
    match diff.accounts[a]
    case None => Find(after.accounts, ToNibs(a)) == Missing && SameStorage(before, a, after)
    case Some(account) =>
      && HasAccount(after, a, account)
      && HasSlots(TrieOf(before, a), StorageOf(diff, a), TrieOf(after, a))
  }

  ghost predicate AccountKept(before: State, a: B256, after: State) {
    Find(after.accounts, ToNibs(a)) == Find(before.accounts, ToNibs(a)) && SameStorage(before, a, after)
  }

  /** Exactly the changes of these accounts were taken. */
  ghost predicate Taken(before: State, diff: HashedPostState, addresses: set<B256>, after: State)
    requires addresses <= diff.accounts.Keys
  {
    && (forall a :: a in addresses ==> AccountTaken(before, diff, a, after))
    && (forall a :: a !in addresses ==> AccountKept(before, a, after))
    && (forall path :: !IsKeyOf(addresses, path) ==> Find(after.accounts, path) == Find(before.accounts, path))
  }

  lemma AppliedSlots(before: Node, storage: HashedStorage, after: Node)
    requires StorageApplied(before, storage, storage.storage.Keys, after)
    ensures HasSlots(before, storage, after)
  {}

  lemma AppliedTaken(before: State, diff: HashedPostState, after: State)
    requires Applied(before, diff, diff.accounts.Keys, after) && InRange(diff)
    ensures Taken(before, diff, diff.accounts.Keys, after)
  {
    forall a | a in diff.accounts ensures AccountTaken(before, diff, a, after) {
      AppliedAccountTaken(before, diff, a, after);
    }
    forall a | a !in diff.accounts ensures AccountKept(before, a, after) {
      OtherKey(diff.accounts.Keys, a);
    }
  }

  lemma AppliedAccountTaken(before: State, diff: HashedPostState, a: B256, after: State)
    requires InRange(diff) && a in diff.accounts && AccountApplied(before, diff, a, after)
    ensures AccountTaken(before, diff, a, after)
  {
    match diff.accounts[a]
    case None =>
    case Some(account) =>
      AccountRoundTrip(account, Hash(after.storages[a]));
      assert TrieOf(after, a) == after.storages[a];
      AppliedSlots(TrieOf(before, a), StorageOf(diff, a), TrieOf(after, a));
  }

  lemma OtherKey(keys: set<B256>, a: B256)
    requires a !in keys
    ensures !IsKeyOf(keys, ToNibs(a))
  {
    forall key | key in keys ensures ToNibs(key) != ToNibs(a) {
      if ToNibs(key) == ToNibs(a) {
        ToNibsInjective(key, a);
      }
    }
  }

  // The roots in the accounts and the storage tries belong together.

  /** Every account with a storage trie has that trie's root. */
  ghost predicate Linked(state: State) {
    forall a :: a in state.storages && Find(state.accounts, ToNibs(a)).Found? ==>
      RootIn(Find(state.accounts, ToNibs(a)).value) == Some(Hash(state.storages[a]))
  }

  lemma ConcatFour(a: Bytes, b: Bytes, c: Bytes, d: Bytes)
    ensures Concat([a, b, c, d]) == a + (b + (c + d))
  {
    assert [a, b, c, d][1..] == [b, c, d];
    assert [b, c, d][1..] == [c, d];
    ConcatTwo(c, d);
  }

  /** A written number reads back. */
  lemma UintReadsBack(n: nat, digits: nat)
    requires n < Power256(digits) && digits <= 32
    ensures ReadUint(EncodeUint(n), digits) == Some(n)
    ensures IsItem(EncodeUint(n)) && |EncodeUint(n)| <= digits + 1
  {
    BigEndianBounded(n, Power256(digits), digits);
    StringIsItem(BigEndian(n));
    ReadString(BigEndian(n), []);
    assert EncodeUint(n) + [] == EncodeUint(n);
    BigEndianRoundTrip(n);
  }

  lemma WordReadsBack(word: B256)
    ensures ReadWord(EncodeString(word)) == Some(word)
    ensures IsItem(EncodeString(word)) && |EncodeString(word)| == 33
  {
    StringIsItem(word);
    ReadString(word, []);
    assert EncodeString(word) + [] == EncodeString(word);
  }

  lemma ListReadsBack(a: Bytes, b: Bytes, c: Bytes, d: Bytes)
    requires IsItem(a) && IsItem(b) && IsItem(c) && IsItem(d)
    requires |a| + |b| + |c| + |d| < LENGTH_LIMIT
    ensures var code, payload := EncodeList(a + (b + (c + d))), a + (b + (c + d));
      ReadItem(code) == Some(Item(true, payload, |code|)) && Split(payload) == Some([a, b, c, d])
  {
    var payload := a + (b + (c + d));
    ConcatFour(a, b, c, d);
    SplitConcat([a, b, c, d]);
    ReadList(payload, []);
    assert EncodeList(payload) + [] == EncodeList(payload);
  }

  /** An encoded account decodes to its fields, with the storage root. */
  lemma AccountRoundTrip(account: Account, storageRoot: B256)
    requires account.nonce < Power256(8) && account.balance < Power256(32)
    ensures DecodeAccount(EncodeAccount(account, storageRoot))
      == Some(TrieAccount(account.nonce, account.balance, storageRoot, account.codeHash))
  {
    UintReadsBack(account.nonce, 8);
    UintReadsBack(account.balance, 32);
    WordReadsBack(storageRoot);
    WordReadsBack(account.codeHash);
    PartsReadBack(EncodeUint(account.nonce), EncodeUint(account.balance),
                  EncodeString(storageRoot), EncodeString(account.codeHash));
  }

  /** The code of an account is a list of four items: nonce, balance, storage root and code hash, in this order. */
  lemma AccountItems(account: Account, storageRoot: B256)
    requires account.nonce < Power256(8) && account.balance < Power256(32)
    ensures var item := ReadItem(EncodeAccount(account, storageRoot));
      && item.Some? && item.value.isList
      && Split(item.value.payload) == Some([EncodeUint(account.nonce), EncodeUint(account.balance),
                                            EncodeString(storageRoot), EncodeString(account.codeHash)])
  {
    UintReadsBack(account.nonce, 8);
    UintReadsBack(account.balance, 32);
    WordReadsBack(storageRoot);
    WordReadsBack(account.codeHash);
    ListReadsBack(EncodeUint(account.nonce), EncodeUint(account.balance),
                  EncodeString(storageRoot), EncodeString(account.codeHash));
  }

  lemma PartsReadBack(nonce: Bytes, balance: Bytes, root: Bytes, codeHash: Bytes)
    requires IsItem(nonce) && IsItem(balance) && IsItem(root) && IsItem(codeHash)
    requires |nonce| + |balance| + |root| + |codeHash| < LENGTH_LIMIT
    requires ReadUint(nonce, 8).Some? && ReadUint(balance, 32).Some?
    requires ReadWord(root).Some? && ReadWord(codeHash).Some?
    ensures DecodeAccount(EncodeList(nonce + (balance + (root + codeHash))))
      == Some(TrieAccount(ReadUint(nonce, 8).value, ReadUint(balance, 32).value,
                          ReadWord(root).value, ReadWord(codeHash).value))
  {
    ListReadsBack(nonce, balance, root, codeHash);
  }

  // Nothing else is read as an account.

  lemma UintReadExact(code: Bytes, digits: nat)
    requires OneItem(code) && ReadUint(code, digits).Some?
    ensures var n := ReadUint(code, digits).value;
      n < Power256(digits) && code == EncodeUint(n)
  {
    var item := ReadItem(code).value;
    ReadItemIff(code, item);
    DigitsRoundTrip(item.payload);
    DigitsBounded(item.payload);
    MorePower(|item.payload|, digits);
  }

  lemma WordReadExact(code: Bytes)
    requires OneItem(code) && ReadWord(code).Some?
    ensures code == EncodeString(ReadWord(code).value)
  {
    ReadItemIff(code, ReadItem(code).value);
  }

  /** Bytes decode to an account exactly when its code is at their start, and its numbers are in range. */
  lemma DecodeAccountIff(code: Bytes, account: TrieAccount)
    ensures DecodeAccount(code) == Some(account)
      <==> account.nonce < Power256(8) && account.balance < Power256(32) && AccountCode(account) <= code
  {
    if DecodeAccount(code) == Some(account) {
      AccountReadExact(code);
    }
    if account.nonce < Power256(8) && account.balance < Power256(32) && AccountCode(account) <= code {
      AccountStartsCode(code, account);
    }
  }

  function AccountCode(account: TrieAccount): Bytes {
    EncodeAccount(Account(account.nonce, account.balance, account.codeHash), account.storageRoot)
  }

  lemma AccountReadExact(code: Bytes)
    requires DecodeAccount(code).Some?
    ensures var account := DecodeAccount(code).value;
      account.nonce < Power256(8) && account.balance < Power256(32) && AccountCode(account) <= code
  {
    var item := ReadItem(code).value;
    ReadItemIff(code, item);
    var items := Split(item.payload).value;
    SplitIff(item.payload, items);
    FourItems(item.payload, items);
    PartsReadExact(items[0], items[1], items[2], items[3]);
  }

  lemma PartsReadExact(nonce: Bytes, balance: Bytes, root: Bytes, codeHash: Bytes)
    requires OneItem(nonce) && OneItem(balance) && OneItem(root) && OneItem(codeHash)
    requires ReadUint(nonce, 8).Some? && ReadUint(balance, 32).Some?
    requires ReadWord(root).Some? && ReadWord(codeHash).Some?
    ensures ReadUint(nonce, 8).value < Power256(8) && ReadUint(balance, 32).value < Power256(32)
    ensures AccountCode(TrieAccount(ReadUint(nonce, 8).value, ReadUint(balance, 32).value,
                                    ReadWord(root).value, ReadWord(codeHash).value))
      == EncodeList(nonce + (balance + (root + codeHash)))
  {
    UintReadExact(nonce, 8);
    UintReadExact(balance, 32);
    WordReadExact(root);
    WordReadExact(codeHash);
  }

  lemma FourItems(payload: Bytes, items: seq<Bytes>)
    requires |items| == 4 && Concat(items) == payload
    ensures payload == items[0] + (items[1] + (items[2] + items[3]))
  {
    assert items == [items[0], items[1], items[2], items[3]];
    ConcatFour(items[0], items[1], items[2], items[3]);
  }

  lemma AccountStartsCode(code: Bytes, account: TrieAccount)
    requires account.nonce < Power256(8) && account.balance < Power256(32) && AccountCode(account) <= code
    ensures DecodeAccount(code) == Some(account)
  {
    var own := AccountCode(account);
    AccountRoundTrip(Account(account.nonce, account.balance, account.codeHash), account.storageRoot);
    var item := ReadItem(own).value;
    ReadItemIff(own, item);
    ReadItemIff(code, item);
  }

  /** Nonces are 64-bit numbers and balances 256-bit numbers. */
  ghost predicate InRange(diff: HashedPostState) {
    forall a :: a in diff.accounts && diff.accounts[a].Some? ==>
      diff.accounts[a].value.nonce < Power256(8) && diff.accounts[a].value.balance < Power256(32)
  }

  /** Applying changes keeps accounts and storage tries together. */
  lemma UpdateKeepsLinks(before: State, diff: HashedPostState, after: State)
    requires Applied(before, diff, diff.accounts.Keys, after)
    requires Linked(before) && InRange(diff)
    ensures Linked(after)
  {
    forall a | a in after.storages && Find(after.accounts, ToNibs(a)).Found?
      ensures RootIn(Find(after.accounts, ToNibs(a)).value) == Some(Hash(after.storages[a]))
    {
      if a in diff.accounts {
        assert AccountApplied(before, diff, a, after);
        AccountRoundTrip(diff.accounts[a].value, Hash(after.storages[a]));
      } else {
        assert SameStorage(before, a, after);
        OtherKey(diff.accounts.Keys, a);
      }
    }
  }
}
