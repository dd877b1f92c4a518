/** The client's side of a subblock: from the witness, through the execution on it, to the public output. */
module SubblockRuns {
  import opened Primitives
  import opened Nibbles
  import opened Trie
  import opened NodeCodec
  import opened Requests
  import opened Subblocks
  import opened StateMap
  import opened EthereumStates
  import opened Witnesses

  /** What the execution of the transactions on a state comes to. */
  datatype Execution = Execution(diff: HashedPostState, receipts: seq<Receipt>, requests: seq<Request>)

  // Execution: a deterministic program that reads accounts and slots. The EVM is not part of this model.

  datatype Question =
    | AskAccount(address: B256)
    | AskSlot(address: B256, slot: B256)

  datatype Action =
    | Ask(question: Question)
    | Finish(run: Execution)

  /** What to do next, after the answers that were given so far. */
  type Program = seq<Option<Bytes>> -> Action

  /** The encoded account or slot; the outer `None` is the panic on a missing storage trie. */
  function Answer(state: State, question: Question): Option<Option<Bytes>> {
    match question
    case AskAccount(a) => Some(Get(state.accounts, ToNibs(a)))
    case AskSlot(a, slot) => if a in state.storages then Some(Get(state.storages[a], ToNibs(slot))) else None
  }

  /** The program on a state, with at most `fuel` questions; `None` if it panics or asks more. */
  ghost function Execute(program: Program, state: State, answers: seq<Option<Bytes>>, fuel: nat): Option<Execution>
    decreases fuel
  {
    match program(answers)
    case Finish(run) => Some(run)
    case Ask(question) =>
      var answer := Answer(state, question);
      if fuel == 0 || answer.None? then None else Execute(program, state, answers + [answer.value], fuel - 1)
  }

  predicate IsTouched(touched: map<B256, seq<B256>>, question: Question) {
    question.address in touched && (question.AskSlot? ==> question.slot in touched[question.address])
  }

  /** The program asks only for touched accounts and slots. */
  ghost predicate AsksTouched(
      program: Program, state: State, answers: seq<Option<Bytes>>, fuel: nat, touched: map<B256, seq<B256>>)
    decreases fuel
  {
    match program(answers)
    case Finish(_) => true
    case Ask(question) =>
      && IsTouched(touched, question)
      && var answer := Answer(state, question);
         fuel > 0 && answer.Some? ==> AsksTouched(program, state, answers + [answer.value], fuel - 1, touched)
  }

  /** On the witness of a state the program runs as it does on the state. */
  lemma {:induction false} ExecutesAlike(
      program: Program, state: State, d: SubblockDiff, w: Witness, answers: seq<Option<Bytes>>, fuel: nat)
    requires WitnessFor(state, d, w) && !CutsShortState(state, w.marks)
    requires AsksTouched(program, state, answers, fuel, d.touched)
    ensures Execute(program, ReloadState(w.pruned), answers, fuel) == Execute(program, state, answers, fuel)
    decreases fuel
  {
    match program(answers)
    case Finish(_) =>
    case Ask(question) =>
      AnsweredAlike(state, d, w, question);
      var answer := Answer(state, question);
      if fuel > 0 && answer.Some? {
        ExecutesAlike(program, state, d, w, answers + [answer.value], fuel - 1);
      }
  }

  lemma AnsweredAlike(state: State, d: SubblockDiff, w: Witness, question: Question)
    requires WitnessFor(state, d, w) && !CutsShortState(state, w.marks) && IsTouched(d.touched, question)
    ensures Answer(ReloadState(w.pruned), question) == Answer(state, question)
  {
    WitnessAnswers(state, d, w, question.address, if question.AskSlot? then question.slot else question.address);
  }

  /** The database answers from the tries, without changing them. */
  method AnswerInPlace(state: EthereumState, question: Question) returns (answer: Option<Option<Bytes>>)
    requires state.Valid()
    ensures answer == Answer(state.View(), question)
    ensures match question
      case AskAccount(a) => answer == Some(Get(state.View().accounts, ToNibs(a)))
      case AskSlot(a, slot) =>
        answer == if a in state.View().storages then Some(Get(state.View().storages[a], ToNibs(slot))) else None
  {
    answer := None;
    match question
    case AskAccount(a) =>
      var value := state.stateTrie.Get(a);
      answer := Some(value);
    case AskSlot(a, slot) =>
      if a in state.storageTries {
        var value := state.storageTries[a].Get(slot);
        answer := Some(value);
      }
  }

  method RunProgram(state: EthereumState, program: Program, fuel: nat) returns (run: Option<Execution>)
    requires state.Valid()
    ensures run == Execute(program, state.View(), [], fuel)
  {
    var answers, left := [], fuel;
    while program(answers).Ask?
      invariant 0 <= left <= fuel
      invariant Execute(program, state.View(), answers, left) == Execute(program, state.View(), [], fuel)
      decreases left
    {
      var answer := AnswerInPlace(state, program(answers).question);
      if left == 0 || answer.None? {
        return None;
      }
      answers, left := answers + [answer.value], left - 1;
    }
    run := Some(program(answers).run);
  }

  /** All bits of all receipts' blooms. */
  method AccrueBloom(receipts: seq<Receipt>) returns (bloom: Bloom)
    ensures bloom == BloomOf(receipts)
    ensures forall bit :: bit in bloom <==> exists i :: 0 <= i < |receipts| && bit in receipts[i].logsBloom
  {
    bloom := {};
    for i := 0 to |receipts|
      invariant bloom == BloomOf(receipts[..i])
      invariant forall bit :: bit in bloom <==> exists j :: 0 <= j < i && bit in receipts[j].logsBloom
    {
      assert receipts[..i + 1] == receipts[..i] + [receipts[i]];
      BloomAppend(receipts[..i], [receipts[i]]);
      bloom := bloom + receipts[i].logsBloom;
    }
    assert receipts[..|receipts|] == receipts;
  }

  /**
   * The output of a subblock; the witness takes the changes. False is the panic of a change that
   * meets an unresolved node.
   */
  method FinishSubblock(state: EthereumState, run: Execution) returns (ok: bool, output: SubblockOutput)
    requires state.Valid() && WellShaped(state.View())
    modifies state, state.owned
    ensures state.Valid() && fresh(state.owned - old(state.owned))
    ensures ok <==> Resolvable(old(state.View()), Retained(run.diff))
    ensures ok ==>
      && Applied(old(state.View()), Retained(run.diff), Retained(run.diff).accounts.Keys, state.View())
      && output == SubblockOutput(Hash(old(state.View()).accounts), Hash(state.View().accounts),
                                  BloomOf(run.receipts), run.receipts, run.requests)
    ensures ok && InRange(run.diff) ==> SubblockTaken(old(state.View()), run.diff, state.View())
  {
    ghost var before := state.View();
    var inputRoot := state.StateRoot();
    var bloom := AccrueBloom(run.receipts);
    var outputRoot;
    ok, outputRoot := ApplyChanges(state, Retained(run.diff), before);
    output := SubblockOutput(inputRoot, outputRoot, bloom, run.receipts, run.requests);
    if ok && InRange(run.diff) {
      RetainedTaken(before, run.diff, state.View());
    }
  }

  /**
   * A subblock as the host made it: on the state before it the program gives these changes and asks
   * only for what was touched, every changed account is touched, and the witness cuts nothing short.
   */
  ghost predicate HostStep(
      program: Program, fuel: nat, run: Execution, touched: map<B256, seq<B256>>,
      before: State, w: Witness, roots: Roots, after: State)
  {
    && StepOf(before, SubblockDiff(run.diff, touched), w, roots, after)
    && !CutsShortState(before, w.marks) && run.diff.accounts.Keys <= touched.Keys
    && Execute(program, before, [], fuel) == Some(run) && AsksTouched(program, before, [], fuel, touched)
  }

  lemma WitnessRuns(
      program: Program, fuel: nat, run: Execution, touched: map<B256, seq<B256>>,
      before: State, w: Witness, roots: Roots, after: State)
    requires HostStep(program, fuel, run, touched, before, w, roots, after)
    ensures var start, changes := ReloadState(w.pruned), Retained(run.diff);
      && Execute(program, start, [], fuel) == Some(run)
      && WellShaped(start) && Resolvable(start, changes) && Hash(start.accounts) == roots.input
      && forall result :: Applied(start, changes, changes.accounts.Keys, result) ==>
           Hash(result.accounts) == roots.output
  {
    var d := SubblockDiff(run.diff, touched);
    ExecutesAlike(program, before, d, w, [], fuel);
    WitnessTakes(before, d, w);
    var start, changes := ReloadState(w.pruned), Retained(run.diff);
    forall result | Applied(start, changes, changes.accounts.Keys, result)
      ensures Hash(result.accounts) == roots.output
    {
      WitnessSuffices(before, d, w, after, result);
    }
    WitnessReloads(before, d, w);
    PrunedWitnessRoot(before, d, w);
  }

  /**
   * The client reproduces the host's output: on the witness that the host made for a subblock, the
   * program that gave the host its changes runs as it did there, the witness takes the changes, and
   * the roots are those that the host announced.
   */
  method ReplaySubblock(
      state: EthereumState, program: Program, fuel: nat, ghost run: Execution, ghost touched: map<B256, seq<B256>>,
      ghost before: State, ghost w: Witness, ghost roots: Roots, ghost after: State)
    returns (ok: bool, output: SubblockOutput)
    requires state.Valid() && state.View() == ReloadState(w.pruned)
    requires HostStep(program, fuel, run, touched, before, w, roots, after)
    modifies state, state.owned
    ensures ok
    ensures output == SubblockOutput(roots.input, roots.output, BloomOf(run.receipts), run.receipts, run.requests)
  {
    WitnessRuns(program, fuel, run, touched, before, w, roots, after);
    var replayed := RunProgram(state, program, fuel);
    ok, output := FinishSubblock(state, replayed.value);
  }
}
