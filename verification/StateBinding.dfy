/**
 * What a state root binds. It binds the accounts, and the storage only together with the check that
 * every storage trie has the root that its account names, which the client makes for a whole block
 * but not for a subblock.
 */
module StateBinding {
  import opened Primitives
  import opened Nibbles
  import opened Trie
  import opened TrieHistory
  import opened NodeCodec
  import opened Binding
  import opened Orphans
  import opened Subblocks
  import opened Aggregation
  import opened AggregationMeaning
  import opened StateMap
  import opened WitnessDb
  import opened SubblockRuns
  import opened Transitions

  // Runs on states with the same root.

  /** Every storage trie has the root that its account names. */
  ghost predicate Matched(state: State) {
    ReadableState(state) && StoragesMatch(state, state.storages.Keys)
  }

  /** The state has everything that the question needs: the account, and for a slot its storage trie. */
  ghost predicate Resolves(state: State, question: Question) {
    && !Find(state.accounts, ToNibs(question.address)).Blocked?
    && (question.AskSlot? ==>
          && question.address in state.storages
          && !Find(state.storages[question.address], ToNibs(question.slot)).Blocked?)
  }

  /** Both states resolve everything that the program asks the first one. */
  ghost predicate AsksResolved(program: Program, s: State, t: State, answers: seq<Option<Bytes>>, fuel: nat)
    decreases fuel
  {
    match program(answers)
    case Finish(_) => true
    case Ask(question) =>
      && Resolves(s, question) && Resolves(t, question)
      && var answer := Answer(s, question);
         fuel > 0 && answer.Some? ==> AsksResolved(program, s, t, answers + [answer.value], fuel - 1)
  }

  lemma SameAnswer(s: State, t: State, question: Question)
    requires Matched(s) && Matched(t) && Hash(s.accounts) == Hash(t.accounts) && StatesApart(s, t)
    requires Resolves(s, question) && Resolves(t, question)
    ensures Answer(s, question) == Answer(t, question)
  {
    AccountsApart(s, t);
    MerkleBinding(s.accounts, t.accounts, ToNibs(question.address));
    if question.AskSlot? {
      SameSlot(s, t, question.address, question.slot);
    }
  }

  lemma SameSlot(s: State, t: State, a: B256, slot: B256)
    requires Matched(s) && Matched(t) && StatesApart(s, t) && a in s.storages && a in t.storages
    requires Get(s.accounts, ToNibs(a)) == Get(t.accounts, ToNibs(a))
    requires !Find(s.storages[a], ToNibs(slot)).Blocked? && !Find(t.storages[a], ToNibs(slot)).Blocked?
    ensures Get(s.storages[a], ToNibs(slot)) == Get(t.storages[a], ToNibs(slot))
  {
    StoragesApart(s, t, a);
    MerkleBinding(s.storages[a], t.storages[a], ToNibs(slot));
  }

  /** With that check, the root determines the execution, as far as both states can answer it. */
  lemma {:induction false} SameRootRunsAlike(
      s: State, t: State, program: Program, answers: seq<Option<Bytes>>, fuel: nat)
    requires Matched(s) && Matched(t) && Hash(s.accounts) == Hash(t.accounts) && StatesApart(s, t)
    requires AsksResolved(program, s, t, answers, fuel)
    ensures Execute(program, s, answers, fuel) == Execute(program, t, answers, fuel)
    decreases fuel
  {
    match program(answers)
    case Finish(_) =>
    case Ask(question) =>
      SameAnswer(s, t, question);
      var answer := Answer(s, question);
      if fuel > 0 && answer.Some? {
        SameRootRunsAlike(s, t, program, answers + [answer.value], fuel - 1);
      }
  }

  // Without the check.

  /** A program that asks one question and reports the answer. */
  function Report(question: Question): Program {
    (answers: seq<Option<Bytes>>) =>
      if answers == [] then Ask(question)
      else Finish(Execution(HashedPostState(map[], map[]), [], if answers[0].Some? then [answers[0].value] else []))
  }

  lemma Reported(state: State, question: Question)
    ensures Execute(Report(question), state, [], 1) ==
      match Answer(state, question)
      case None => None
      case Some(answer) =>
        Some(Execution(HashedPostState(map[], map[]), [], if answer.Some? then [answer.value] else []))
  {
    var answer := Answer(state, question);
    if answer.Some? {
      assert ([] + [answer.value])[0] == answer.value;
    }
  }

  lemma SameReport(s: State, t: State, question: Question)
    requires Execute(Report(question), s, [], 1) == Execute(Report(question), t, [], 1)
    ensures Answer(s, question) == Answer(t, question)
  {
    Reported(s, question);
    Reported(t, question);
  }

  /**
   * Without it the root does not bind the storage: two states with the same accounts, and so with
   * the same root, that differ in one slot, and a program that runs differently on them.
   */
  lemma UncheckedStorage(accounts: Node, a: B256, slot: B256, first: Bytes, second: Bytes)
    requires first != second
    ensures var s, t := State(accounts, map[a := Leaf(ToNibs(slot), first)]),
                        State(accounts, map[a := Leaf(ToNibs(slot), second)]);
      && Hash(s.accounts) == Hash(t.accounts)
      && Execute(Report(AskSlot(a, slot)), s, [], 1) != Execute(Report(AskSlot(a, slot)), t, [], 1)
  {
    Reported(State(accounts, map[a := Leaf(ToNibs(slot), first)]), AskSlot(a, slot));
    Reported(State(accounts, map[a := Leaf(ToNibs(slot), second)]), AskSlot(a, slot));
  }

  // Complete states.

  /** All tries of the state are complete, and their keys are 32 bytes long. */
  ghost predicate CompleteState(state: State) {
    && Complete(state.accounts) && Uniform(state.accounts, 64)
    && forall a :: a in state.storages ==> Complete(state.storages[a]) && Uniform(state.storages[a], 64)
  }

  lemma SameTrie(m: Node, n: Node)
    requires Complete(m) && Complete(n) && Hash(m) == Hash(n) && Distinguishable(m, n)
    ensures m == n
  {
    SameHash(m, n);
    FullBinding(m, n);
  }

  /** A complete trie of 32-byte keys is determined by the answers for them. */
  lemma AnswersDetermine(m: Node, n: Node)
    requires Complete(m) && Complete(n) && Uniform(m, 64) && Uniform(n, 64)
    requires forall slot: B256 :: Get(m, ToNibs(slot)) == Get(n, ToNibs(slot))
    ensures m == n
  {
    forall path ensures Find(m, path) == Find(n, path) {
      FullNotBlocked(m, path);
      FullNotBlocked(n, path);
      assert AtDepth(Find(m, path), path, 64) && AtDepth(Find(n, path), path, 64);
      if |path| == 64 {
        assert Get(m, ToNibs(KeyOf(path))) == Get(n, ToNibs(KeyOf(path)));
        GetIsFind(m, path);
        GetIsFind(n, path);
      }
    }
    CanonicalUnique(m, n);
  }

  /** With the check, the root and the set of storage tries determine a complete state. */
  lemma MatchedBinds(s: State, t: State)
    requires CompleteState(s) && CompleteState(t) && Matched(s) && Matched(t) && StatesApart(s, t)
    requires Hash(s.accounts) == Hash(t.accounts) && s.storages.Keys == t.storages.Keys
    ensures s == t
  {
    AccountsApart(s, t);
    SameTrie(s.accounts, t.accounts);
    forall a | a in s.storages ensures s.storages[a] == t.storages[a] {
      MatchedStorage(s, t, a);
    }
    SameStates(s, t);
  }

  lemma MatchedStorage(s: State, t: State, a: B256)
    requires CompleteState(s) && CompleteState(t) && Matched(s) && Matched(t) && StatesApart(s, t)
    requires s.accounts == t.accounts && a in s.storages && a in t.storages
    ensures s.storages[a] == t.storages[a]
  {
    assert ClaimedRoot(s.accounts, a) == Some(Hash(s.storages[a]));
    assert ClaimedRoot(t.accounts, a) == Some(Hash(t.storages[a]));
    StoragesApart(s, t, a);
    SameTrie(s.storages[a], t.storages[a]);
  }

  /** No program can tell the states apart. */
  ghost predicate RunAlike(s: State, t: State) {
    forall program: Program, fuel: nat :: Execute(program, s, [], fuel) == Execute(program, t, [], fuel)
  }

  lemma AlikeAnswers(s: State, t: State, question: Question)
    requires RunAlike(s, t)
    ensures Answer(s, question) == Answer(t, question)
  {
    SameReport(s, t, question);
  }

  lemma AlikeStorages(s: State, t: State)
    requires CompleteState(s) && CompleteState(t) && RunAlike(s, t)
    ensures s.storages == t.storages
  {
    forall a: B256 ensures a in s.storages <==> a in t.storages {
      AlikeAnswers(s, t, AskSlot(a, a));
    }
    forall a | a in s.storages ensures s.storages[a] == t.storages[a] {
      forall slot: B256 ensures Get(s.storages[a], ToNibs(slot)) == Get(t.storages[a], ToNibs(slot)) {
        AlikeAnswers(s, t, AskSlot(a, slot));
      }
      AnswersDetermine(s.storages[a], t.storages[a]);
    }
  }

  /**
   * The check is exactly what is needed: of two complete states with the same root, where every
   * storage trie of the first has the root that its account names, all programs run alike exactly
   * when that holds for the second too, and it has a storage trie for the same accounts.
   */
  lemma RunAlikeIff(s: State, t: State)
    requires CompleteState(s) && CompleteState(t) && Matched(s) && StatesApart(s, t)
    requires Hash(s.accounts) == Hash(t.accounts)
    ensures RunAlike(s, t) <==> Matched(t) && s.storages.Keys == t.storages.Keys
  {
    if RunAlike(s, t) {
      AlikeStorages(s, t);
      AccountsApart(s, t);
      SameTrie(s.accounts, t.accounts);
    } else if Matched(t) && s.storages.Keys == t.storages.Keys {
      MatchedBinds(s, t);
    }
  }

  // What that means for aggregation.

  /** A complete state with exactly the storage tries of its accounts, each with the root that the account names. */
  ghost predicate Tidy(state: State) {
    && CompleteState(state) && Matched(state)
    && forall a :: a in state.storages <==> Get(state.accounts, ToNibs(a)).Some?
  }

  lemma TidyBinds(s: State, t: State)
    requires Tidy(s) && Tidy(t) && StatesApart(s, t) && Hash(s.accounts) == Hash(t.accounts)
    ensures s == t
  {
    AccountsApart(s, t);
    SameTrie(s.accounts, t.accounts);
    assert s.storages.Keys == t.storages.Keys;
    MatchedBinds(s, t);
  }

  /** The states in which the subblocks start, and in which the ones before them end, are tidy. */
  ghost predicate TidyStates(m: Machine<State>, values: seq<PublicValue>, starts: seq<State>, parent: State)
    requires AllGenuine(m, values, starts)
  {
    forall i :: 0 <= i < |values| ==>
      var before := StateBefore(m, values, starts, parent, i);
      Tidy(starts[i]) && Tidy(before) && StatesApart(starts[i], before)
  }

  /**
   * For machines on the two-level state the roots bind if all states are tidy: then acceptance means
   * one run over the whole block.
   */
  lemma TidyAggregation(
      m: Machine<State>, rules: Rules, values: seq<PublicValue>, starts: seq<State>, parent: State,
      input: AggregationInput)
    requires forall state :: m.root(state) == Hash(state.accounts)
    requires AllGenuine(m, values, starts) && TidyStates(m, values, starts, parent)
    requires Accepts(values, input, m.root(parent), rules) && FlagsFit(FlagsOf(values))
    ensures RootsBind(m, values, starts, parent)
    ensures Means(m, rules, parent, input)
  {
    forall i | 0 <= i < |values| && m.root(starts[i]) == m.root(StateBefore(m, values, starts, parent, i))
      ensures starts[i] == StateBefore(m, values, starts, parent, i)
    {
      TidyBinds(starts[i], StateBefore(m, values, starts, parent, i));
    }
    AggregationPreservesMeaning(m, rules, values, starts, parent, input);
  }
}
