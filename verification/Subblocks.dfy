/**
 * Blocks, subblocks and the runs they stand for. The EVM is an abstract machine: what it does
 * before the first transaction, for each transaction, and after the last one.
 */
module Subblocks {
  import opened Primitives
  import opened Requests

  type Transaction = Bytes

  /** The positions of the bits that are set. */
  type Bloom = set<nat>

  datatype Receipt = Receipt(cumulativeGasUsed: nat, logsBloom: Bloom, rest: Bytes)

  datatype Header = Header(
    number: U64, parentHash: B256, ommersHash: B256, stateRoot: B256, transactionsRoot: B256,
    withdrawalsRoot: Option<B256>, logsBloom: Bloom, requestsHash: Option<B256>, rest: Bytes)

  datatype Block = Block(
    header: Header, transactions: seq<Transaction>, ommers: seq<Bytes>, withdrawals: Option<seq<Bytes>>)

  datatype SubblockInput = SubblockInput(
    currentBlock: Block, blockHashes: map<U64, B256>,
    isFirst: bool, isLast: bool, startingGasUsed: nat)

  datatype SubblockOutput = SubblockOutput(
    inputStateRoot: B256, outputStateRoot: B256, logsBloom: Bloom,
    receipts: seq<Receipt>, requests: seq<Request>)

  /** What the proof of a subblock commits to. */
  datatype PublicValue = PublicValue(input: SubblockInput, output: SubblockOutput)

  // The machine.

  /** Everything but the state and the transactions that an execution depends on. */
  datatype Context = Context(
    header: Header, ommers: seq<Bytes>, withdrawals: Option<seq<Bytes>>, blockHashes: map<U64, B256>)

  /** The effect of one transaction. */
  datatype Effect<S> = Effect(state: S, gasUsed: nat, logsBloom: Bloom, rest: Bytes, requests: seq<Request>)

  /** `step` also depends on the gas used so far in the block; `None` means that the execution fails. */
  datatype Machine<!S> = Machine(
    begin: (Context, S) -> S,
    step: (Context, S, nat, Transaction) -> Option<Effect<S>>,
    finish: (Context, S) -> (S, seq<Request>),
    root: S -> B256)

  datatype Run<S> = Run(state: S, receipts: seq<Receipt>, requests: seq<Request>)

  /** The transactions one after the other, starting with `gas` used. */
  function Transact<S>(m: Machine<S>, c: Context, state: S, gas: nat, txs: seq<Transaction>): (run: Option<Run<S>>)
    ensures run.Some? ==> |run.value.receipts| == |txs|
    decreases |txs|
  {
    if txs == [] then Some(Run(state, [], []))
    else
      match m.step(c, state, gas, txs[0])
      case None => None
      case Some(effect) =>
        var gas' := gas + effect.gasUsed;
        match Transact(m, c, effect.state, gas', txs[1..])
        case None => None
        case Some(run) =>
          Some(Run(run.state, [Receipt(gas', effect.logsBloom, effect.rest)] + run.receipts,
                   effect.requests + run.requests))
  }

  /** A subblock: the first one starts the block, the last one ends it. */
  function RunSubblock<S>(
      m: Machine<S>, c: Context, state: S, isFirst: bool, isLast: bool, gas: nat, txs: seq<Transaction>)
    : (run: Option<Run<S>>)
  {
    match Transact(m, c, if isFirst then m.begin(c, state) else state, gas, txs)
    case None => None
    case Some(run) =>
      if isLast then
        var (state', requests) := m.finish(c, run.state);
        Some(Run(state', run.receipts, run.requests + requests))
      else Some(run)
  }

  function GasAfter(gas: nat, receipts: seq<Receipt>): nat {
    if receipts == [] then gas else receipts[|receipts| - 1].cumulativeGasUsed
  }

  function BloomOf(receipts: seq<Receipt>): Bloom {
    if receipts == [] then {} else receipts[0].logsBloom + BloomOf(receipts[1..])
  }

  function ContextOf(input: SubblockInput): Context {
    Context(input.currentBlock.header, input.currentBlock.ommers, input.currentBlock.withdrawals, input.blockHashes)
  }

  /** The public value of the run from the given state. */
  ghost predicate Genuine<S>(m: Machine<S>, value: PublicValue, state: S) {
    var run := RunSubblock(m, ContextOf(value.input), state, value.input.isFirst, value.input.isLast,
                           value.input.startingGasUsed, value.input.currentBlock.transactions);
    && run.Some?
    && value.output == SubblockOutput(m.root(state), m.root(run.value.state), BloomOf(run.value.receipts),
                                      run.value.receipts, run.value.requests)
  }

  // Transactions in two parts.

  function Join<S>(first: Run<S>, second: Option<Run<S>>): Option<Run<S>> {
    if second.None? then None
    else Some(Run(second.value.state, first.receipts + second.value.receipts, first.requests + second.value.requests))
  }

  /** Running a list is running a part of it, and then the rest from where that ended. */
  function ThenTransact<S>(
      m: Machine<S>, c: Context, first: Option<Run<S>>, gas: nat, txs: seq<Transaction>): Option<Run<S>>
  {
    if first.None? then None
    else Join(first.value, Transact(m, c, first.value.state, GasAfter(gas, first.value.receipts), txs))
  }

  lemma {:induction false} TransactAppend<S>(
      m: Machine<S>, c: Context, state: S, gas: nat, p: seq<Transaction>, q: seq<Transaction>)
    ensures Transact(m, c, state, gas, p + q) == ThenTransact(m, c, Transact(m, c, state, gas, p), gas, q)
    decreases |p|
  {
    if p == [] {
      assert p + q == q;
      var all := Transact(m, c, state, gas, q);
      if all.Some? {
        assert [] + all.value.receipts == all.value.receipts && [] + all.value.requests == all.value.requests;
      }
    } else {
      assert (p + q)[0] == p[0] && (p + q)[1..] == p[1..] + q;
      var step := m.step(c, state, gas, p[0]);
      if step.Some? {
        var gas' := gas + step.value.gasUsed;
        TransactAppend(m, c, step.value.state, gas', p[1..], q);
        var rest := Transact(m, c, step.value.state, gas', p[1..]);
        if rest.Some? {
          var receipt := Receipt(gas', step.value.logsBloom, step.value.rest);
          JoinFirst(receipt, step.value.requests, rest.value,
                    Transact(m, c, rest.value.state, GasAfter(gas', rest.value.receipts), q));
        }
      }
    }
  }

  lemma JoinFirst<S>(receipt: Receipt, requests: seq<Request>, rest: Run<S>, second: Option<Run<S>>)
    ensures second.Some? ==>
      && [receipt] + (rest.receipts + second.value.receipts) == ([receipt] + rest.receipts) + second.value.receipts
      && requests + (rest.requests + second.value.requests) == (requests + rest.requests) + second.value.requests
  {}

  lemma {:induction false} BloomAppend(a: seq<Receipt>, b: seq<Receipt>)
    ensures BloomOf(a + b) == BloomOf(a) + BloomOf(b)
  {
    if a == [] {
      assert a + b == b;
    } else {
      assert (a + b)[1..] == a[1..] + b;
      BloomAppend(a[1..], b);
    }
  }
}
