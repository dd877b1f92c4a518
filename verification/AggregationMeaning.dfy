/** What an accepted aggregation means: the subblocks add up to one run over the whole block. */
module AggregationMeaning {
  import opened Primitives
  import opened Requests
  import opened Subblocks
  import opened Aggregation

  /** The context of a run over the whole block. */
  function BlockContext(input: AggregationInput): Context {
    Context(input.currentBlock.header, input.currentBlock.ommers, input.currentBlock.withdrawals,
            HashesOf(input.ancestors))
  }

  /** The block as one run, from before the first transaction to after the last one. */
  function WholeRun<S>(m: Machine<S>, parent: S, input: AggregationInput): Option<Run<S>> {
    RunSubblock(m, BlockContext(input), parent, true, true, 0, input.currentBlock.transactions)
  }

  /** One run over the whole block reaches what the header says. */
  ghost predicate Means<S>(m: Machine<S>, rules: Rules, parent: S, input: AggregationInput) {
    var run, header := WholeRun(m, parent, input), input.currentBlock.header;
    && run.Some?
    && m.root(run.value.state) == header.stateRoot
    && BloomOf(run.value.receipts) == header.logsBloom
    && rules(header, run.value.receipts, AfterMerge(run.value.requests))
  }

  ghost predicate AllGenuine<S>(m: Machine<S>, values: seq<PublicValue>, starts: seq<S>) {
    && |starts| == |values|
    && forall i :: 0 <= i < |values| ==> Genuine(m, values[i], starts[i])
  }

  function RunOf<S>(m: Machine<S>, value: PublicValue, start: S): Option<Run<S>> {
    RunSubblock(m, ContextOf(value.input), start, value.input.isFirst, value.input.isLast,
                value.input.startingGasUsed, value.input.currentBlock.transactions)
  }

  /** The state in which the `i`-th subblock should start. */
  ghost function StateBefore<S>(m: Machine<S>, values: seq<PublicValue>, starts: seq<S>, parent: S, i: nat): S
    requires AllGenuine(m, values, starts) && i <= |values|
  {
    if i == 0 then parent
    else assert Genuine(m, values[i - 1], starts[i - 1]); RunOf(m, values[i - 1], starts[i - 1]).value.state
  }

  /** Of the states involved, two that follow each other and have the same root are the same. */
  ghost predicate RootsBind<S>(m: Machine<S>, values: seq<PublicValue>, starts: seq<S>, parent: S)
    requires AllGenuine(m, values, starts)
  {
    forall i :: 0 <= i < |values| && m.root(starts[i]) == m.root(StateBefore(m, values, starts, parent, i)) ==>
      starts[i] == StateBefore(m, values, starts, parent, i)
  }

  /** With several subblocks, the first does not end the block and the last does not start it. */
  predicate FlagsFit(flags: seq<(bool, bool)>) {
    |flags| > 1 ==> !flags[0].1 && !flags[|flags| - 1].0
  }

  function FlagsOf(values: seq<PublicValue>): (flags: seq<(bool, bool)>)
    ensures |flags| == |values|
  {
    seq(|values|, i requires 0 <= i < |values| => (values[i].input.isFirst, values[i].input.isLast))
  }

  lemma GenuineRoots<S>(m: Machine<S>, value: PublicValue, start: S)
    requires Genuine(m, value, start)
    ensures RunOf(m, value, start).Some?
    ensures m.root(start) == value.output.inputStateRoot
    ensures m.root(RunOf(m, value, start).value.state) == value.output.outputStateRoot
  {}

  /** The roots say that a subblock starts in the state in which the one before it ended. */
  lemma StartsInPlace<S>(
      m: Machine<S>, values: seq<PublicValue>, starts: seq<S>, parent: S, block: Block, i: nat)
    requires AllGenuine(m, values, starts) && RootsBind(m, values, starts, parent)
    requires i < |values| && SubblockAccepted(values, i, block, m.root(parent))
    ensures starts[i] == StateBefore(m, values, starts, parent, i)
  {
    GenuineRoots(m, values[i], starts[i]);
    if i > 0 {
      GenuineRoots(m, values[i - 1], starts[i - 1]);
      assert values[..i][i - 1] == values[i - 1];
    }
  }

  lemma FlagsInPlace(values: seq<PublicValue>, i: nat, block: Block, parentRoot: B256)
    requires i < |values| && SubblockAccepted(values, i, block, parentRoot) && FlagsFit(FlagsOf(values))
    ensures values[i].input.isFirst == (i == 0) && values[i].input.isLast == (i + 1 == |values|)
  {
    assert FlagsOf(values)[i] == (values[i].input.isFirst, values[i].input.isLast);
  }

  /** The run of a subblock, where it belongs. */
  ghost predicate RunsFrom<S>(m: Machine<S>, c: Context, values: seq<PublicValue>, i: nat, start: S, end: S)
    requires i < |values|
  {
    RunSubblock(m, c, start, i == 0, i + 1 == |values|, GasAfter(0, ReceiptsOf(values[..i])),
                values[i].input.currentBlock.transactions)
      == Some(Run(end, values[i].output.receipts, values[i].output.requests))
  }

  /** What acceptance says about one genuine subblock. */
  lemma SubblockInPlace<S>(
      m: Machine<S>, values: seq<PublicValue>, starts: seq<S>, parent: S, input: AggregationInput, i: nat)
    requires AllGenuine(m, values, starts) && RootsBind(m, values, starts, parent)
    requires i < |values| && SubblockAccepted(values, i, input.currentBlock, m.root(parent))
    requires values[0].input.blockHashes == HashesOf(input.ancestors) && FlagsFit(FlagsOf(values))
    ensures RunsFrom(m, BlockContext(input), values, i,
                     StateBefore(m, values, starts, parent, i), StateBefore(m, values, starts, parent, i + 1))
  {
    StartsInPlace(m, values, starts, parent, input.currentBlock, i);
    FlagsInPlace(values, i, input.currentBlock, m.root(parent));
    assert ContextOf(values[i].input) == BlockContext(input);
    assert Genuine(m, values[i], starts[i]);
  }

  /** A run that has not ended the block, and a run from where it stopped, are one run. */
  lemma RunAppend<S>(
      m: Machine<S>, c: Context, parent: S, p: seq<Transaction>, first: Run<S>,
      isLast: bool, q: seq<Transaction>, second: Run<S>)
    requires RunSubblock(m, c, parent, true, false, 0, p) == Some(first)
    requires RunSubblock(m, c, first.state, false, isLast, GasAfter(0, first.receipts), q) == Some(second)
    ensures RunSubblock(m, c, parent, true, isLast, 0, p + q)
      == Some(Run(second.state, first.receipts + second.receipts, first.requests + second.requests))
  {
    TransactAppend(m, c, m.begin(c, parent), 0, p, q);
    var rest := Transact(m, c, first.state, GasAfter(0, first.receipts), q).value;
    if isLast {
      var requests := m.finish(c, rest.state).1;
      assert (first.requests + rest.requests) + requests == first.requests + (rest.requests + requests);
    }
  }

  /** The first `k` subblocks are one run, which ends the block if they are all. */
  ghost predicate OneRun<S>(m: Machine<S>, c: Context, parent: S, values: seq<PublicValue>, k: nat, end: S)
    requires k <= |values|
  {
    RunSubblock(m, c, parent, true, k == |values|, 0, TransactionsOf(values[..k]))
      == Some(Run(end, ReceiptsOf(values[..k]), RequestsOf(values[..k])))
  }

  lemma FirstRun<S>(m: Machine<S>, c: Context, parent: S, values: seq<PublicValue>, end: S)
    requires values != [] && RunsFrom(m, c, values, 0, parent, end)
    ensures OneRun(m, c, parent, values, 1, end)
  {
    var value := values[0];
    assert values[..1][..0] == [] && values[..0] == [];
    assert [] + value.input.currentBlock.transactions == value.input.currentBlock.transactions;
    assert [] + value.output.receipts == value.output.receipts;
    assert [] + value.output.requests == value.output.requests;
  }

  lemma LongerRun<S>(m: Machine<S>, c: Context, parent: S, values: seq<PublicValue>, i: nat, middle: S, end: S)
    requires 0 < i < |values| && OneRun(m, c, parent, values, i, middle)
    requires RunsFrom(m, c, values, i, middle, end)
    ensures OneRun(m, c, parent, values, i + 1, end)
  {
    var value := values[i];
    assert values[..i + 1][..i] == values[..i];
    RunAppend(m, c, parent, TransactionsOf(values[..i]),
              Run(middle, ReceiptsOf(values[..i]), RequestsOf(values[..i])),
              i + 1 == |values|, value.input.currentBlock.transactions,
              Run(end, value.output.receipts, value.output.requests));
  }

  lemma OneMoreRun<S>(
      m: Machine<S>, c: Context, parent: S, values: seq<PublicValue>, i: nat, k: nat, middle: S, end: S)
    requires i + 1 == k <= |values| && RunsFrom(m, c, values, i, middle, end)
    requires if i == 0 then middle == parent else OneRun(m, c, parent, values, i, middle)
    ensures OneRun(m, c, parent, values, k, end)
  {
    if i == 0 {
      FirstRun(m, c, parent, values, end);
    } else {
      LongerRun(m, c, parent, values, i, middle, end);
    }
  }

  /** Runs that each start where the one before them ended are one run. */
  lemma {:induction false} RunsCompose<S>(
      m: Machine<S>, c: Context, parent: S, values: seq<PublicValue>, states: seq<S>, k: nat)
    requires 0 < k <= |values| && |states| == |values| + 1 && states[0] == parent
    requires forall i :: 0 <= i < k ==> RunsFrom(m, c, values, i, states[i], states[i + 1])
    ensures OneRun(m, c, parent, values, k, states[k])
    decreases k
  {
    var i := k - 1;
    if i > 0 {
      RunsCompose(m, c, parent, values, states, i);
    }
    OneMoreRun(m, c, parent, values, i, k, states[i], states[k]);
  }

  ghost function StatesBefore<S>(m: Machine<S>, values: seq<PublicValue>, starts: seq<S>, parent: S): (states: seq<S>)
    requires AllGenuine(m, values, starts)
    ensures |states| == |values| + 1
    ensures forall i :: 0 <= i <= |values| ==> states[i] == StateBefore(m, values, starts, parent, i)
  {
    seq(|values| + 1, i requires 0 <= i <= |values| => StateBefore(m, values, starts, parent, i))
  }

  lemma RunSoFar<S>(
      m: Machine<S>, values: seq<PublicValue>, starts: seq<S>, parent: S, input: AggregationInput, k: nat)
    requires AllGenuine(m, values, starts) && RootsBind(m, values, starts, parent)
    requires SubblocksAccepted(values, |values|, input.currentBlock, m.root(parent)) && 0 < k <= |values|
    requires values[0].input.blockHashes == HashesOf(input.ancestors) && FlagsFit(FlagsOf(values))
    ensures OneRun(m, BlockContext(input), parent, values, k, StateBefore(m, values, starts, parent, k))
  {
    var c, states := BlockContext(input), StatesBefore(m, values, starts, parent);
    forall i | 0 <= i < k ensures RunsFrom(m, c, values, i, states[i], states[i + 1]) {
      assert SubblockAccepted(values, i, input.currentBlock, m.root(parent));
      SubblockInPlace(m, values, starts, parent, input, i);
    }
    RunsCompose(m, c, parent, values, states, k);
  }

  lemma {:induction false} BloomsGenuine<S>(m: Machine<S>, values: seq<PublicValue>, starts: seq<S>, k: nat)
    requires AllGenuine(m, values, starts) && k <= |values|
    ensures BloomsOf(values[..k]) == BloomOf(ReceiptsOf(values[..k]))
  {
    if k > 0 {
      assert values[..k][..k - 1] == values[..k - 1];
      assert Genuine(m, values[k - 1], starts[k - 1]);
      BloomsGenuine(m, values, starts, k - 1);
      BloomAppend(ReceiptsOf(values[..k - 1]), values[k - 1].output.receipts);
    }
  }

  /**
   * Aggregation preserves meaning: if every public value is genuine, the roots bind the states, and
   * the flags fit, then what is accepted is one run over the whole block, from the parent state to
   * the state, the receipts, the bloom and the requests that the header stands for.
   */
  lemma AggregationPreservesMeaning<S>(
      m: Machine<S>, rules: Rules, values: seq<PublicValue>, starts: seq<S>, parent: S, input: AggregationInput)
    requires AllGenuine(m, values, starts) && RootsBind(m, values, starts, parent)
    requires Accepts(values, input, m.root(parent), rules) && FlagsFit(FlagsOf(values))
    ensures Means(m, rules, parent, input)
    ensures WholeRun(m, parent, input).value.receipts == ReceiptsOf(values)
  {
    var n := |values|;
    assert values[..n] == values;
    RunSoFar(m, values, starts, parent, input, n);
    BloomsGenuine(m, values, starts, n);
    assert Genuine(m, values[n - 1], starts[n - 1]);
  }
}
