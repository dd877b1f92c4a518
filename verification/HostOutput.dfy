/** What the host produces is what the aggregator accepts. */
module HostOutput {
  import opened Primitives
  import opened Requests
  import opened Subblocks
  import opened GasSplit
  import opened Aggregation
  import opened AggregationMeaning
  import opened HostLoop

  datatype HostFailure = SplitFailed(split: SplitFailure) | LoopFailed(loop: LoopFailure)

  /** Splits the gas of a block and executes it in subblocks. */
  method SplitAndExecute<S>(
      m: Machine<S>, c: Context, parent: S, block: Block, gas: seq<U64>, totalGas: U64, count: U64)
    returns (result: Result<seq<PublicValue>, HostFailure>, ghost cuts: seq<nat>)
    ensures result.Success? ==> TransactionsOf(result.value) == block.transactions
    ensures RunsThrough(m, c, parent, block.transactions, gas) && Regular(gas, totalGas, count) ==>
      && result.Success? && 1 <= |result.value| <= count
      && |cuts| == |result.value| + 1 && CutsBlock(cuts, |gas|)
      && AllOnPlan(m, c, parent, block, gas, cuts, result.value)
  {
    var limits;
    ghost var early;
    limits, cuts, early := ComputeSubblockGasLimits(gas, |block.transactions|, totalGas, count);
    if limits.Failure? {
      return Failure(SplitFailed(limits.error)), cuts;
    }
    if gas == [] {
      cuts := [0, 0];
    }
    var values := ExecuteSubblocks(m, c, parent, block, limits.value, gas, cuts);
    if values.Failure? {
      return Failure(LoopFailed(values.error)), cuts;
    }
    result := Success(values.value);
  }

  /** The cuts go from the start to the end; only a block without transactions has an empty piece. */
  ghost predicate CutsBlock(cuts: seq<nat>, length: nat) {
    (length == 0 && cuts == [0, 0]) || (length > 0 && IsCut(cuts, length))
  }

  /** The `i`-th value with the block hashes and the state roots filled in. */
  function Filled<S>(m: Machine<S>, c: Context, value: PublicValue, start: S): PublicValue {
    var run := RunSubblock(m, c, start, value.input.isFirst, value.input.isLast, value.input.startingGasUsed,
                           value.input.currentBlock.transactions);
    PublicValue(
      value.input.(blockHashes := c.blockHashes),
      value.output.(inputStateRoot := m.root(start),
                    outputStateRoot := if run.Some? then m.root(run.value.state) else NoRoot()))
  }

  /** Everything about a host's run that the aggregator will look at. */
  datatype HostRun<!S> = HostRun(
    machine: Machine<S>, parent: S, input: AggregationInput, gas: seq<U64>, cuts: seq<nat>, values: seq<PublicValue>)
  {
    function Txs(): seq<Transaction> { input.currentBlock.transactions }

    function Context(): Context { BlockContext(input) }

    /** The host ran the whole block, as planned. */
    ghost predicate Complete() {
      && RunsThrough(machine, Context(), parent, Txs(), gas)
      && |cuts| == |values| + 1 && CutsBlock(cuts, |gas|)
      && AllOnPlan(machine, Context(), parent, input.currentBlock, gas, cuts, values)
    }

    /** The state before the `i`-th subblock. */
    ghost function Start(i: nat): S
      requires i < |cuts|
    {
      if cuts[i] <= |Txs()| then StateAt(machine, Context(), parent, Txs(), cuts[i]) else parent
    }

    ghost function Starts(): (starts: seq<S>)
      requires |cuts| == |values| + 1
      ensures |starts| == |values| && forall i :: 0 <= i < |values| ==> starts[i] == Start(i)
    {
      seq(|values|, i requires 0 <= i < |values| => Start(i))
    }

    /** The public values, with hashes and roots. */
    ghost function Output(): (output: seq<PublicValue>)
      requires |cuts| == |values| + 1
      ensures |output| == |values|
      ensures forall i :: 0 <= i < |values| ==> output[i] == Filled(machine, Context(), values[i], Start(i))
    {
      seq(|values|, i requires 0 <= i < |values| => Filled(machine, Context(), values[i], Start(i)))
    }

    /** The receipts of all transactions of the block. */
    ghost function AllReceipts(): seq<Receipt>
      requires RunsThrough(machine, Context(), parent, Txs(), gas)
    {
      Transact(machine, Context(), machine.begin(Context(), parent), 0, Txs()).value.receipts
    }
  }

  lemma CutAt<S>(r: HostRun<S>, i: nat)
    requires r.Complete() && i < |r.values|
    ensures r.cuts[0] == 0 && r.cuts[|r.values|] == |r.gas| == |r.Txs()|
    ensures r.cuts[i] <= r.cuts[i + 1] <= |r.gas|
    ensures (i > 0 ==> 0 < r.cuts[i]) && (i + 1 < |r.values| ==> r.cuts[i + 1] < |r.gas|)
  {}

  /** Every value comes from a genuine run, which ends where the next one starts. */
  lemma OutputGenuine<S>(r: HostRun<S>, i: nat)
    requires r.Complete() && i < |r.values|
    ensures Genuine(r.machine, r.Output()[i], r.Start(i))
    ensures r.Output()[i].output.receipts == r.AllReceipts()[r.cuts[i]..r.cuts[i + 1]]
    ensures i + 1 < |r.values| ==> RunOf(r.machine, r.Output()[i], r.Start(i)).value.state == r.Start(i + 1)
  {
    CutAt(r, i);
    assert OnPlan(r.machine, r.Context(), r.parent, r.input.currentBlock, r.gas, r.cuts, i, r.values[i]);
    StretchEnd(r.machine, r.Context(), r.parent, r.Txs(), r.gas, r.cuts[i], r.cuts[i + 1]);
  }

  lemma OutputPart<S>(r: HostRun<S>, i: nat)
    requires r.Complete() && i < |r.values|
    ensures r.cuts[i] <= r.cuts[i + 1] <= |r.Txs()| == |r.AllReceipts()|
    ensures r.Output()[i].input.currentBlock.transactions == r.Txs()[r.cuts[i]..r.cuts[i + 1]]
    ensures r.Output()[i].output.receipts == r.AllReceipts()[r.cuts[i]..r.cuts[i + 1]]
  {
    CutAt(r, i);
    OutputGenuine(r, i);
    assert OnPlan(r.machine, r.Context(), r.parent, r.input.currentBlock, r.gas, r.cuts, i, r.values[i]);
  }

  lemma OneMorePart<T>(list: seq<T>, i: nat, j: nat)
    requires i <= j <= |list|
    ensures list[..i] + list[i..j] == list[..j]
  {}

  /** The pieces up to a cut are the list up to there. */
  lemma {:induction false} TransactionsSoFar<S>(r: HostRun<S>, k: nat)
    requires r.Complete() && k <= |r.values|
    ensures r.cuts[k] <= |r.Txs()| && TransactionsOf(r.Output()[..k]) == r.Txs()[..r.cuts[k]]
  {
    var output := r.Output();
    if k > 0 {
      TransactionsSoFar(r, k - 1);
      OutputPart(r, k - 1);
      assert output[..k][..k - 1] == output[..k - 1];
      OneMorePart(r.Txs(), r.cuts[k - 1], r.cuts[k]);
    }
  }

  lemma ReceiptsOneMore(values: seq<PublicValue>, i: nat, all: seq<Receipt>, from: nat, to: nat)
    requires i < |values| && from <= to <= |all|
    requires ReceiptsOf(values[..i]) == all[..from] && values[i].output.receipts == all[from..to]
    ensures ReceiptsOf(values[..i + 1]) == all[..to]
  {
    assert values[..i + 1][..i] == values[..i];
    OneMorePart(all, from, to);
  }

  lemma {:induction false} ReceiptsSoFar<S>(r: HostRun<S>, k: nat)
    requires r.Complete() && k <= |r.values|
    ensures r.cuts[k] <= |r.AllReceipts()| && ReceiptsOf(r.Output()[..k]) == r.AllReceipts()[..r.cuts[k]]
  {
    var output := r.Output();
    if k > 0 {
      ReceiptsSoFar(r, k - 1);
      OutputPart(r, k - 1);
      ReceiptsOneMore(output, k - 1, r.AllReceipts(), r.cuts[k - 1], r.cuts[k]);
    }
  }

  /** The input of a subblock is as the aggregator expects. */
  lemma OutputInput<S>(r: HostRun<S>, i: nat)
    requires r.Complete() && i < |r.values|
    ensures var input := r.Output()[i].input;
      && input.blockHashes == HashesOf(r.input.ancestors)
      && SameBlock(input.currentBlock, r.input.currentBlock)
      && input.isFirst == (i == 0) && input.isLast == (i + 1 == |r.values|)
      && input.startingGasUsed == GasAfter(0, ReceiptsOf(r.Output()[..i]))
  {
    CutAt(r, i);
    ReceiptsSoFar(r, i);
    MeteredGas(r.AllReceipts(), r.gas, r.cuts[i]);
    assert OnPlan(r.machine, r.Context(), r.parent, r.input.currentBlock, r.gas, r.cuts, i, r.values[i]);
  }

  /** It starts with the root that the one before it ended with. */
  lemma OutputRoot<S>(r: HostRun<S>, i: nat)
    requires r.Complete() && i < |r.values|
    ensures r.Output()[i].output.inputStateRoot == RootAfter(r.machine.root(r.parent), r.Output()[..i])
  {
    CutAt(r, i);
    if i > 0 {
      OutputGenuine(r, i - 1);
      GenuineRoots(r.machine, r.Output()[i - 1], r.Start(i - 1));
      assert r.Output()[..i][i - 1] == r.Output()[i - 1];
    }
  }

  lemma OutputAccepted<S>(r: HostRun<S>, i: nat)
    requires r.Complete() && i < |r.values|
    ensures SubblockAccepted(r.Output(), i, r.input.currentBlock, r.machine.root(r.parent))
    ensures FlagsOf(r.Output())[i] == (i == 0, i + 1 == |r.values|)
  {
    OutputInput(r, 0);
    OutputInput(r, i);
    OutputRoot(r, i);
  }

  /** The subblocks of a host that ran the whole block are genuine. */
  lemma AllOutputGenuine<S>(r: HostRun<S>)
    requires r.Complete()
    ensures AllGenuine(r.machine, r.Output(), r.Starts())
  {
    forall i | 0 <= i < |r.values| ensures Genuine(r.machine, r.Output()[i], r.Starts()[i]) {
      OutputGenuine(r, i);
    }
  }

  /** Their states follow each other. */
  lemma OutputBinds<S>(r: HostRun<S>)
    requires r.Complete()
    ensures AllGenuine(r.machine, r.Output(), r.Starts())
    ensures RootsBind(r.machine, r.Output(), r.Starts(), r.parent)
  {
    AllOutputGenuine(r);
    forall i | 0 <= i < |r.values|
      ensures StateBefore(r.machine, r.Output(), r.Starts(), r.parent, i) == r.Starts()[i]
    {
      StateFollows(r, i);
    }
  }

  lemma StateFollows<S>(r: HostRun<S>, i: nat)
    requires r.Complete() && AllGenuine(r.machine, r.Output(), r.Starts()) && i < |r.values|
    ensures StateBefore(r.machine, r.Output(), r.Starts(), r.parent, i) == r.Start(i)
  {
    if i > 0 {
      OutputGenuine(r, i - 1);
    } else {
      CutAt(r, i);
    }
  }

  /** They fit together. */
  lemma OutputFits<S>(r: HostRun<S>)
    requires r.Complete()
    ensures FlagsFit(FlagsOf(r.Output()))
    ensures SubblocksAccepted(r.Output(), |r.values|, r.input.currentBlock, r.machine.root(r.parent))
    ensures TransactionsOf(r.Output()) == r.Txs() && r.values != []
  {
    forall i | 0 <= i < |r.values|
      ensures SubblockAccepted(r.Output(), i, r.input.currentBlock, r.machine.root(r.parent))
      ensures FlagsOf(r.Output())[i] == (i == 0, i + 1 == |r.values|)
    {
      OutputAccepted(r, i);
    }
    TransactionsSoFar(r, |r.values|);
    assert r.Output()[..|r.values|] == r.Output();
  }

  /** What the aggregator asks of the block itself. */
  ghost predicate ValidBlock<S>(m: Machine<S>, rules: Rules, parent: S, input: AggregationInput) {
    && input.ancestors != [] && IsChain(input)
    && Means(m, rules, parent, input)
    && !MergePanics(WholeRun(m, parent, input).value.requests)
  }

  /**
   * The aggregator accepts what the host produces, for every valid block: the other direction of
   * what acceptance means.
   */
  lemma HostOutputAccepted<S>(r: HostRun<S>, rules: Rules)
    requires r.Complete() && ValidBlock(r.machine, rules, r.parent, r.input)
    ensures Accepts(r.Output(), r.input, r.machine.root(r.parent), rules)
  {
    var n, output := |r.values|, r.Output();
    ChainedIff(r.input);
    OutputBinds(r);
    OutputFits(r);
    RunSoFar(r.machine, output, r.Starts(), r.parent, r.input, n);
    assert output[..n] == output;
    BloomsGenuine(r.machine, output, r.Starts(), n);
    GenuineRoots(r.machine, output[n - 1], r.Starts()[n - 1]);
  }
}
