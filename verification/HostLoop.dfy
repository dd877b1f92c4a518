/** The loop of the host that cuts the transactions of a block into subblocks and executes them. */
module HostLoop {
  import opened Primitives
  import opened Subblocks
  import opened GasSplit
  import opened Aggregation

  // Execution with a gas limit.

  datatype Stretch<S> = Stretch(run: Run<S>, rest: seq<Transaction>)

  /**
   * Transactions as long as the gas used in the block stays within the limit. The executor of the
   * source is not part of this model; this is what the loop expects of it.
   */
  function TransactWithin<S>(
      m: Machine<S>, c: Context, state: S, gas: nat, txs: seq<Transaction>, limit: nat)
    : (stretch: Option<Stretch<S>>)
    ensures stretch.Some? ==> |stretch.value.run.receipts| + |stretch.value.rest| == |txs|
    decreases |txs|
  {
    if txs == [] then Some(Stretch(Run(state, [], []), []))
    else
      match m.step(c, state, gas, txs[0])
      case None => None
      case Some(effect) =>
        var gas' := gas + effect.gasUsed;
        if gas' > limit then Some(Stretch(Run(state, [], []), txs))
        else
          match TransactWithin(m, c, effect.state, gas', txs[1..], limit)
          case None => None
          case Some(stretch) =>
            Some(Stretch(
              Run(stretch.run.state, [Receipt(gas', effect.logsBloom, effect.rest)] + stretch.run.receipts,
                  effect.requests + stretch.run.requests),
              stretch.rest))
  }

  /** A subblock up to the limit. The block is ended when no transaction is left. */
  function Execute<S>(
      m: Machine<S>, c: Context, state: S, isFirst: bool, gas: nat, txs: seq<Transaction>, limit: nat)
    : (stretch: Option<Stretch<S>>)
    ensures stretch.Some? ==> |stretch.value.run.receipts| + |stretch.value.rest| == |txs|
  {
    match TransactWithin(m, c, if isFirst then m.begin(c, state) else state, gas, txs, limit)
    case None => None
    case Some(stretch) =>
      if stretch.rest == [] then
        var (state', requests) := m.finish(c, stretch.run.state);
        Some(Stretch(Run(state', stretch.run.receipts, stretch.run.requests + requests), []))
      else Some(stretch)
  }

  lemma OneLater<T>(list: seq<T>, k: nat, next: nat)
    requires next == k + 1 <= |list|
    ensures list[1..][k..] == list[next..]
    ensures list[..next][1..] == list[1..][..k] && list[..next][0] == list[0]
  {}

  /** What was taken is a run of a prefix. */
  lemma {:induction false} TakesPrefix<S>(
      m: Machine<S>, c: Context, state: S, gas: nat, txs: seq<Transaction>, limit: nat)
    requires TransactWithin(m, c, state, gas, txs, limit).Some?
    ensures var stretch := TransactWithin(m, c, state, gas, txs, limit).value;
      var taken := |stretch.run.receipts|;
      stretch.rest == txs[taken..] && Transact(m, c, state, gas, txs[..taken]) == Some(stretch.run)
    decreases |txs|
  {
    if txs != [] {
      var effect := m.step(c, state, gas, txs[0]).value;
      var gas' := gas + effect.gasUsed;
      if gas' <= limit {
        TakesPrefix(m, c, effect.state, gas', txs[1..], limit);
        var taken := |TransactWithin(m, c, effect.state, gas', txs[1..], limit).value.run.receipts|;
        OneLater(txs, taken, taken + 1);
      }
    }
  }

  /** It stays within the limit. */
  lemma {:induction false} TakesWithin<S>(
      m: Machine<S>, c: Context, state: S, gas: nat, txs: seq<Transaction>, limit: nat)
    requires gas <= limit && TransactWithin(m, c, state, gas, txs, limit).Some?
    ensures GasAfter(gas, TransactWithin(m, c, state, gas, txs, limit).value.run.receipts) <= limit
    decreases |txs|
  {
    if txs != [] {
      var effect := m.step(c, state, gas, txs[0]).value;
      if gas + effect.gasUsed <= limit {
        TakesWithin(m, c, effect.state, gas + effect.gasUsed, txs[1..], limit);
      }
    }
  }

  /** One transaction more would go past the limit: the prefix that was taken is the longest one. */
  lemma {:induction false} TakesLongest<S>(
      m: Machine<S>, c: Context, state: S, gas: nat, txs: seq<Transaction>, limit: nat)
    requires TransactWithin(m, c, state, gas, txs, limit).Some?
    ensures var taken := |TransactWithin(m, c, state, gas, txs, limit).value.run.receipts|;
      taken < |txs| ==>
        var more := Transact(m, c, state, gas, txs[..taken + 1]);
        more.Some? && GasAfter(gas, more.value.receipts) > limit
    decreases |txs|
  {
    if txs != [] {
      var effect := m.step(c, state, gas, txs[0]).value;
      var gas' := gas + effect.gasUsed;
      if gas' <= limit {
        TakesLongest(m, c, effect.state, gas', txs[1..], limit);
        var taken := |TransactWithin(m, c, effect.state, gas', txs[1..], limit).value.run.receipts|;
        if taken + 1 < |txs| {
          assert txs[..taken + 2][1..] == txs[1..][..taken + 1];
        }
      } else {
        assert txs[..1][1..] == [];
      }
    }
  }

  // Where the limits cut.

  /** The receipts show the gas of each transaction, and each transaction uses some. */
  ghost predicate Metered(receipts: seq<Receipt>, gas: seq<U64>) {
    && |receipts| == |gas|
    && forall i :: 0 <= i < |gas| ==> gas[i] > 0 && receipts[i].cumulativeGasUsed == Sum(gas[..i + 1])
  }

  lemma MeteredGas(receipts: seq<Receipt>, gas: seq<U64>, k: nat)
    requires Metered(receipts, gas) && k <= |gas|
    ensures GasAfter(0, receipts[..k]) == Sum(gas[..k])
  {}

  ghost predicate GasGrows(gas: nat, receipts: seq<Receipt>) {
    forall i, j :: 0 <= i < j <= |receipts| ==> GasAfter(gas, receipts[..i]) < GasAfter(gas, receipts[..j])
  }

  lemma MeteredPart(receipts: seq<Receipt>, gas: seq<U64>, from: nat, to: nat)
    requires Metered(receipts, gas) && from <= to <= |gas|
    ensures GasAfter(Sum(gas[..from]), receipts[from..][..to - from]) == Sum(gas[..to])
  {}

  lemma MeteredBetween(receipts: seq<Receipt>, gas: seq<U64>, from: nat, to: nat, length: nat)
    requires Metered(receipts, gas) && from <= to <= |gas| && length == to - from
    ensures GasAfter(Sum(gas[..from]), receipts[from..][..length]) == Sum(gas[..to])
  {
    MeteredPart(receipts, gas, from, to);
  }

  lemma MeteredGrows(receipts: seq<Receipt>, gas: seq<U64>, from: nat, to: nat)
    requires Metered(receipts, gas) && from <= to <= |gas|
    ensures GasGrows(Sum(gas[..from]), receipts[from..])
    ensures GasAfter(Sum(gas[..from]), receipts[from..][..to - from]) == Sum(gas[..to])
  {
    MeteredPart(receipts, gas, from, to);
    forall i, j | 0 <= i < j <= |receipts[from..]|
      ensures GasAfter(Sum(gas[..from]), receipts[from..][..i]) < GasAfter(Sum(gas[..from]), receipts[from..][..j])
    {
      MeteredBetween(receipts, gas, from, from + i, i);
      MeteredBetween(receipts, gas, from, from + j, j);
      SumsIncrease(gas, from + i, from + j);
    }
  }

  /** The limits are made for these transactions, or there are none and the limit does not matter. */
  ghost predicate Planned(limits: seq<nat>, cuts: seq<nat>, gas: seq<U64>) {
    || (gas == [] && |limits| == 1 && cuts == [0, 0])
    || (gas != [] && IsCut(cuts, |gas|) && LimitsOf(limits, cuts, gas))
  }

  lemma PlannedCuts(limits: seq<nat>, cuts: seq<nat>, gas: seq<U64>, i: nat)
    requires Planned(limits, cuts, gas) && i < |limits|
    ensures |cuts| == |limits| + 1 && cuts[0] == 0 && cuts[|limits|] == |gas|
    ensures cuts[i] <= cuts[i + 1] <= |gas| && (i > 0 ==> 0 < cuts[i])
    ensures i + 1 < |limits| ==> cuts[i + 1] < |gas|
    ensures gas != [] ==> Sum(gas[..cuts[i]]) + limits[i] == Sum(gas[..cuts[i + 1]])
  {}

  /** What a plan says about one of its subblocks. */
  ghost predicate PlanStep(limits: seq<nat>, cuts: seq<nat>, gas: seq<U64>, i: nat) {
    && i + 2 <= |cuts| == |limits| + 1 && cuts[i] <= cuts[i + 1] <= |gas|
    && (cuts[i] == 0 <==> i == 0) && (cuts[i + 1] == |gas| <==> i + 2 == |cuts|)
    && (i + 2 < |cuts| ==> 0 < cuts[i + 1])
    && (gas == [] || Sum(gas[..cuts[i]]) + limits[i] == Sum(gas[..cuts[i + 1]]))
  }

  lemma PlannedStep(limits: seq<nat>, cuts: seq<nat>, gas: seq<U64>, i: nat)
    requires Planned(limits, cuts, gas) && i < |limits|
    ensures PlanStep(limits, cuts, gas, i)
  {
    PlannedCuts(limits, cuts, gas, i);
    if i + 1 < |limits| {
      PlannedCuts(limits, cuts, gas, i + 1);
    }
  }

  lemma {:induction false} WithinSucceeds<S>(
      m: Machine<S>, c: Context, state: S, gas: nat, txs: seq<Transaction>, limit: nat)
    requires Transact(m, c, state, gas, txs).Some?
    ensures TransactWithin(m, c, state, gas, txs, limit).Some?
    decreases |txs|
  {
    if txs != [] {
      var effect := m.step(c, state, gas, txs[0]).value;
      WithinSucceeds(m, c, effect.state, gas + effect.gasUsed, txs[1..], limit);
    }
  }

  /** A run of a list begins with the run of its first part. */
  lemma PartOfRun<S>(m: Machine<S>, c: Context, state: S, gas: nat, txs: seq<Transaction>, k: nat)
    requires Transact(m, c, state, gas, txs).Some? && k <= |txs|
    ensures var first, whole := Transact(m, c, state, gas, txs[..k]), Transact(m, c, state, gas, txs).value;
      && first.Some? && first.value.receipts == whole.receipts[..k]
      && var rest := Transact(m, c, first.value.state, GasAfter(gas, first.value.receipts), txs[k..]);
        && rest.Some? && rest.value.receipts == whole.receipts[k..] && rest.value.state == whole.state
  {
    assert txs[..k] + txs[k..] == txs;
    TransactAppend(m, c, state, gas, txs[..k], txs[k..]);
  }

  /** If the gas after the first `k` transactions is the limit, and gas grows, exactly those are taken. */
  lemma TakesUpToLimit<S>(
      m: Machine<S>, c: Context, state: S, gas: nat, txs: seq<Transaction>, k: nat, limit: nat)
    requires Transact(m, c, state, gas, txs).Some? && k <= |txs|
    requires var receipts := Transact(m, c, state, gas, txs).value.receipts;
      GasAfter(gas, receipts[..k]) == limit && GasGrows(gas, receipts)
    ensures Transact(m, c, state, gas, txs[..k]).Some?
    ensures TransactWithin(m, c, state, gas, txs, limit)
      == Some(Stretch(Transact(m, c, state, gas, txs[..k]).value, txs[k..]))
  {
    var receipts := Transact(m, c, state, gas, txs).value.receipts;
    assert receipts[..0] == [];
    assert gas <= limit;
    WithinSucceeds(m, c, state, gas, txs, limit);
    var taken := |TransactWithin(m, c, state, gas, txs, limit).value.run.receipts|;
    TakesPrefix(m, c, state, gas, txs, limit);
    TakesWithin(m, c, state, gas, txs, limit);
    TakesLongest(m, c, state, gas, txs, limit);
    PartOfRun(m, c, state, gas, txs, taken);
    if taken < |txs| {
      PartOfRun(m, c, state, gas, txs, taken + 1);
    }
    LimitReached(gas, receipts, taken, k, limit);
  }

  lemma LimitReached(gas: nat, receipts: seq<Receipt>, taken: nat, k: nat, limit: nat)
    requires GasGrows(gas, receipts) && taken <= |receipts| && k <= |receipts|
    requires GasAfter(gas, receipts[..k]) == limit && GasAfter(gas, receipts[..taken]) <= limit
    requires taken < |receipts| ==> GasAfter(gas, receipts[..taken + 1]) > limit
    ensures taken == k
  {}

  // The loop.

  /** The block runs through, and the receipts are those that the limits were made from. */
  ghost predicate RunsThrough<S>(m: Machine<S>, c: Context, parent: S, txs: seq<Transaction>, gas: seq<U64>) {
    var run := Transact(m, c, m.begin(c, parent), 0, txs);
    run.Some? && |gas| == |txs| && Metered(run.value.receipts, gas)
  }

  /** The state after the first `k` transactions, or before the block is started. */
  ghost function StateAt<S>(m: Machine<S>, c: Context, parent: S, txs: seq<Transaction>, k: nat): S
    requires k <= |txs|
  {
    var run := Transact(m, c, m.begin(c, parent), 0, txs[..k]);
    if k == 0 || run.None? then parent else run.value.state
  }

  /** The state in which the transactions of a subblock start. */
  function Begun<S>(m: Machine<S>, c: Context, state: S, isFirst: bool): S {
    if isFirst then m.begin(c, state) else state
  }

  lemma PartsOfRest<T>(list: seq<T>, from: nat, to: nat)
    requires from <= to <= |list|
    ensures list[from..][..to - from] == list[from..to] && list[from..][to - from..] == list[to..]
  {}

  /** The rest of the block, from a cut on. */
  lemma RestOfBlock<S>(
      m: Machine<S>, c: Context, parent: S, txs: seq<Transaction>, gas: seq<U64>, from: nat)
    requires RunsThrough(m, c, parent, txs, gas) && from <= |txs|
    ensures var start := Begun(m, c, StateAt(m, c, parent, txs, from), from == 0);
      var rest := Transact(m, c, start, Sum(gas[..from]), txs[from..]);
      && rest.Some?
      && rest.value.receipts == Transact(m, c, m.begin(c, parent), 0, txs).value.receipts[from..]
      && Transact(m, c, m.begin(c, parent), 0, txs[..from]).Some?
      && start == Transact(m, c, m.begin(c, parent), 0, txs[..from]).value.state
  {
    var begun := m.begin(c, parent);
    PartOfRun(m, c, begun, 0, txs, from);
    MeteredGas(Transact(m, c, begun, 0, txs).value.receipts, gas, from);
  }

  /** A stretch of the block between two cuts: up to the gas limit, exactly its transactions are taken. */
  lemma StretchTaken<S>(
      m: Machine<S>, c: Context, parent: S, txs: seq<Transaction>, gas: seq<U64>, from: nat, to: nat)
    requires RunsThrough(m, c, parent, txs, gas) && from <= to <= |txs|
    ensures var start := Begun(m, c, StateAt(m, c, parent, txs, from), from == 0);
      var run := Transact(m, c, start, Sum(gas[..from]), txs[from..to]);
      && run.Some?
      && TransactWithin(m, c, start, Sum(gas[..from]), txs[from..], Sum(gas[..to]))
           == Some(Stretch(run.value, txs[to..]))
  {
    var start := Begun(m, c, StateAt(m, c, parent, txs, from), from == 0);
    RestOfBlock(m, c, parent, txs, gas, from);
    MeteredGrows(Transact(m, c, m.begin(c, parent), 0, txs).value.receipts, gas, from, to);
    PartsOfRest(txs, from, to);
    var used, rest, k := Sum(gas[..from]), txs[from..], to - from;
    TakesUpToLimit(m, c, start, used, rest, k, Sum(gas[..to]));
    assert rest[..k] == txs[from..to] && rest[k..] == txs[to..];
  }

  /** Its receipts are part of those of the block. */
  lemma StretchReceipts<S>(
      m: Machine<S>, c: Context, parent: S, txs: seq<Transaction>, gas: seq<U64>, from: nat, to: nat)
    requires RunsThrough(m, c, parent, txs, gas) && from <= to <= |txs|
    ensures var start := Begun(m, c, StateAt(m, c, parent, txs, from), from == 0);
      var run := Transact(m, c, start, Sum(gas[..from]), txs[from..to]);
      && run.Some?
      && run.value.receipts == Transact(m, c, m.begin(c, parent), 0, txs).value.receipts[from..to]
  {
    var start := Begun(m, c, StateAt(m, c, parent, txs, from), from == 0);
    var receipts := Transact(m, c, m.begin(c, parent), 0, txs).value.receipts;
    RestOfBlock(m, c, parent, txs, gas, from);
    PartOfRun(m, c, start, Sum(gas[..from]), txs[from..], to - from);
    PartsOfRest(txs, from, to);
    PartsOfRest(receipts, from, to);
  }

  /** It ends where the next one starts. */
  lemma StretchState<S>(
      m: Machine<S>, c: Context, parent: S, txs: seq<Transaction>, gas: seq<U64>, from: nat, to: nat)
    requires RunsThrough(m, c, parent, txs, gas) && from <= to <= |txs|
    ensures var start := Begun(m, c, StateAt(m, c, parent, txs, from), from == 0);
      var run := Transact(m, c, start, Sum(gas[..from]), txs[from..to]);
      run.Some? && (to > 0 ==> run.value.state == StateAt(m, c, parent, txs, to))
  {
    var begun := m.begin(c, parent);
    RestOfBlock(m, c, parent, txs, gas, from);
    StretchReceipts(m, c, parent, txs, gas, from, to);
    PartOfRun(m, c, begun, 0, txs, from);
    MeteredGas(Transact(m, c, begun, 0, txs).value.receipts, gas, from);
    assert txs[..from] + txs[from..to] == txs[..to];
    TransactAppend(m, c, begun, 0, txs[..from], txs[from..to]);
  }

  /** The `i`-th subblock of the plan. Roots and block hashes are filled in later. */
  ghost predicate OnPlan<S>(
      m: Machine<S>, c: Context, parent: S, block: Block, gas: seq<U64>, cuts: seq<nat>, i: nat, value: PublicValue)
    requires i + 1 < |cuts|
  {
    && cuts[i] <= cuts[i + 1] <= |block.transactions| && cuts[i] <= |gas|
    && var start, txs := StateAt(m, c, parent, block.transactions, cuts[i]), block.transactions[cuts[i]..cuts[i + 1]];
      var isFirst, isLast := i == 0, i + 2 == |cuts|;
      var run := RunSubblock(m, c, start, isFirst, isLast, Sum(gas[..cuts[i]]), txs);
      && run.Some?
      && value == BareValue(block.(transactions := txs), isFirst, isLast, Sum(gas[..cuts[i]]), run.value)
  }

  /** A public value without roots and block hashes. */
  function BareValue<S>(block: Block, isFirst: bool, isLast: bool, gas: nat, run: Run<S>): PublicValue {
    PublicValue(
      SubblockInput(block, map[], isFirst, isLast, gas),
      SubblockOutput(NoRoot(), NoRoot(), BloomOf(run.receipts), run.receipts, run.requests))
  }

  ghost predicate AllOnPlan<S>(
      m: Machine<S>, c: Context, parent: S, block: Block, gas: seq<U64>, cuts: seq<nat>, values: seq<PublicValue>)
    requires |values| < |cuts|
  {
    forall i :: 0 <= i < |values| ==> OnPlan(m, c, parent, block, gas, cuts, i, values[i])
  }

  datatype LoopFailure = LimitsExhausted | ExecutionFailed

  /** Where the loop stands. */
  datatype Progress<S> = Progress(complete: nat, gasUsed: nat, state: S)

  ghost predicate Reached<S>(
      m: Machine<S>, c: Context, parent: S, block: Block, gas: seq<U64>, cuts: seq<nat>, i: nat, p: Progress<S>)
    requires i < |cuts|
  {
    && cuts[i] <= |block.transactions| && cuts[i] <= |gas|
    && p == Progress(cuts[i], Sum(gas[..cuts[i]]), StateAt(m, c, parent, block.transactions, cuts[i]))
  }

  /** What the loop has done before it runs the next subblock. */
  ghost predicate Going<S>(
      m: Machine<S>, c: Context, parent: S, block: Block, gas: seq<U64>, cuts: seq<nat>,
      values: seq<PublicValue>, p: Progress<S>)
    requires |values| < |cuts|
  {
    && Reached(m, c, parent, block, gas, cuts, |values|, p)
    && AllOnPlan(m, c, parent, block, gas, cuts, values)
  }

  /**
   * Cuts the block into subblocks, one per gas limit. If the limits are made from the gas of the
   * transactions, the loop runs exactly once per limit, and each subblock is as planned.
   */
  method ExecuteSubblocks<S>(
      m: Machine<S>, c: Context, parent: S, block: Block, limits: seq<nat>, ghost gas: seq<U64>, ghost cuts: seq<nat>)
    returns (result: Result<seq<PublicValue>, LoopFailure>)
    ensures result.Success? ==> TransactionsOf(result.value) == block.transactions && |result.value| <= |limits|
    ensures RunsThrough(m, c, parent, block.transactions, gas) && Planned(limits, cuts, gas) ==>
      && result.Success? && |result.value| == |limits|
      && AllOnPlan(m, c, parent, block, gas, cuts, result.value)
  {
    ghost var planned := RunsThrough(m, c, parent, block.transactions, gas) && Planned(limits, cuts, gas);
    var values: seq<PublicValue> := [];
    var p := Progress(0, 0, parent);
    var finished := false;
    while !finished
      invariant |values| <= |limits| && p.complete <= |block.transactions|
      invariant TransactionsOf(values) == block.transactions[..p.complete]
      invariant finished ==> p.complete == |block.transactions|
      invariant planned && !finished ==> |values| < |limits| && Going(m, c, parent, block, gas, cuts, values, p)
      invariant planned && finished ==> |values| == |limits| && AllOnPlan(m, c, parent, block, gas, cuts, values)
      decreases !finished, |limits| - |values|
    {
      if |values| == |limits| {
        return Failure(LimitsExhausted);
      }
      var stretch := Execute(m, c, p.state, p.complete == 0, p.gasUsed, block.transactions[p.complete..],
                             limits[|values|] + p.gasUsed);
      if planned {
        NextOnPlan(m, c, parent, block, limits, gas, cuts, values, p);
      }
      if stretch.None? {
        return Failure(ExecutionFailed);
      }
      var value := ValueOf(block, p, stretch.value.run);
      TransactionsOneMore(values, value, block.transactions, p.complete, p.complete + |stretch.value.run.receipts|);
      values, p := values + [value], After(p, stretch.value.run);
      finished := p.complete >= |block.transactions|;
    }
    assert block.transactions[..p.complete] == block.transactions;
    result := Success(values);
  }

  lemma TransactionsOneMore(
      values: seq<PublicValue>, value: PublicValue, txs: seq<Transaction>, from: nat, to: nat)
    requires from <= to <= |txs| && TransactionsOf(values) == txs[..from]
    requires value.input.currentBlock.transactions == txs[from..to]
    ensures TransactionsOf(values + [value]) == txs[..to]
  {
    assert (values + [value])[..|values|] == values;
  }

  /** The value of the subblock that was run next. */
  function ValueOf<S>(block: Block, p: Progress<S>, run: Run<S>): PublicValue
    requires p.complete + |run.receipts| <= |block.transactions|
  {
    var upper := p.complete + |run.receipts|;
    BareValue(block.(transactions := block.transactions[p.complete..upper]),
              p.complete == 0, upper == |block.transactions|, p.gasUsed, run)
  }

  function After<S>(p: Progress<S>, run: Run<S>): Progress<S> {
    Progress(p.complete + |run.receipts|, GasAfter(p.gasUsed, run.receipts), run.state)
  }

  /** Up to a limit that is made for a stretch, exactly the subblock with that stretch is executed. */
  lemma StretchExecuted<S>(
      m: Machine<S>, c: Context, parent: S, txs: seq<Transaction>, gas: seq<U64>, from: nat, to: nat, limit: nat)
    requires RunsThrough(m, c, parent, txs, gas) && from <= to <= |txs|
    requires txs == [] || limit == Sum(gas[..to])
    ensures var start := StateAt(m, c, parent, txs, from);
      var run := RunSubblock(m, c, start, from == 0, to == |txs|, Sum(gas[..from]), txs[from..to]);
      && run.Some?
      && Execute(m, c, start, from == 0, Sum(gas[..from]), txs[from..], limit) == Some(Stretch(run.value, txs[to..]))
  {
    if txs == [] {
      assert txs[from..] == [] && txs[from..to] == [] && txs[to..] == [];
    } else {
      StretchTaken(m, c, parent, txs, gas, from, to);
    }
  }

  lemma StretchEnd<S>(
      m: Machine<S>, c: Context, parent: S, txs: seq<Transaction>, gas: seq<U64>, from: nat, to: nat)
    requires RunsThrough(m, c, parent, txs, gas) && from <= to <= |txs|
    ensures var start := StateAt(m, c, parent, txs, from);
      var run := RunSubblock(m, c, start, from == 0, to == |txs|, Sum(gas[..from]), txs[from..to]);
      && run.Some? && |run.value.receipts| == to - from
      && (0 < to < |txs| ==> run.value.state == StateAt(m, c, parent, txs, to))
      && GasAfter(Sum(gas[..from]), run.value.receipts) == Sum(gas[..to])
      && run.value.receipts == Transact(m, c, m.begin(c, parent), 0, txs).value.receipts[from..to]
  {
    StretchReceipts(m, c, parent, txs, gas, from, to);
    StretchState(m, c, parent, txs, gas, from, to);
    var receipts := Transact(m, c, m.begin(c, parent), 0, txs).value.receipts;
    MeteredGrows(receipts, gas, from, to);
    PartsOfRest(receipts, from, to);
  }

  /** What is executed next between two cuts. */
  lemma NextStretch<S>(
      m: Machine<S>, c: Context, parent: S, block: Block, gas: seq<U64>, cuts: seq<nat>,
      i: nat, p: Progress<S>, limit: nat)
    requires RunsThrough(m, c, parent, block.transactions, gas)
    requires i + 1 < |cuts| && Reached(m, c, parent, block, gas, cuts, i, p)
    requires cuts[i] <= cuts[i + 1] <= |gas| && (cuts[i] == 0 <==> i == 0)
    requires cuts[i + 1] == |gas| <==> i + 2 == |cuts|
    requires i + 2 < |cuts| ==> 0 < cuts[i + 1]
    requires gas == [] || limit + p.gasUsed == Sum(gas[..cuts[i + 1]])
    ensures var stretch := Execute(m, c, p.state, p.complete == 0, p.gasUsed, block.transactions[p.complete..],
                                   limit + p.gasUsed);
      && stretch.Some?
      && p.complete + |stretch.value.run.receipts| == cuts[i + 1]
      && OnPlan(m, c, parent, block, gas, cuts, i, ValueOf(block, p, stretch.value.run))
      && (i + 2 < |cuts| ==> Reached(m, c, parent, block, gas, cuts, i + 1, After(p, stretch.value.run)))
  {
    StretchFrom(m, c, parent, block, gas, cuts, i, p, limit);
    StretchOnPlan(m, c, parent, block, gas, cuts, i, p);
    if i + 2 < |cuts| {
      StretchReaches(m, c, parent, block, gas, cuts, i, p);
    }
  }

  /** The run from one cut to the next. */
  ghost function StretchRun<S>(
      m: Machine<S>, c: Context, block: Block, cuts: seq<nat>, i: nat, p: Progress<S>): Option<Run<S>>
    requires i + 1 < |cuts| && cuts[i] <= cuts[i + 1] <= |block.transactions|
  {
    RunSubblock(m, c, p.state, i == 0, i + 2 == |cuts|, p.gasUsed, block.transactions[cuts[i]..cuts[i + 1]])
  }

  lemma StretchFrom<S>(
      m: Machine<S>, c: Context, parent: S, block: Block, gas: seq<U64>, cuts: seq<nat>,
      i: nat, p: Progress<S>, limit: nat)
    requires RunsThrough(m, c, parent, block.transactions, gas)
    requires i + 1 < |cuts| && Reached(m, c, parent, block, gas, cuts, i, p)
    requires cuts[i] <= cuts[i + 1] <= |gas| && (cuts[i] == 0 <==> i == 0)
    requires cuts[i + 1] == |gas| <==> i + 2 == |cuts|
    requires gas == [] || limit + p.gasUsed == Sum(gas[..cuts[i + 1]])
    ensures StretchRun(m, c, block, cuts, i, p).Some?
    ensures Execute(m, c, p.state, p.complete == 0, p.gasUsed, block.transactions[p.complete..], limit + p.gasUsed)
      == Some(Stretch(StretchRun(m, c, block, cuts, i, p).value, block.transactions[cuts[i + 1]..]))
  {
    StretchExecuted(m, c, parent, block.transactions, gas, cuts[i], cuts[i + 1], limit + p.gasUsed);
  }

  lemma StretchOnPlan<S>(
      m: Machine<S>, c: Context, parent: S, block: Block, gas: seq<U64>, cuts: seq<nat>, i: nat, p: Progress<S>)
    requires RunsThrough(m, c, parent, block.transactions, gas)
    requires i + 1 < |cuts| && Reached(m, c, parent, block, gas, cuts, i, p)
    requires cuts[i] <= cuts[i + 1] <= |gas| && (cuts[i] == 0 <==> i == 0)
    requires cuts[i + 1] == |gas| <==> i + 2 == |cuts|
    requires StretchRun(m, c, block, cuts, i, p).Some?
    ensures var run := StretchRun(m, c, block, cuts, i, p).value;
      && p.complete + |run.receipts| == cuts[i + 1]
      && OnPlan(m, c, parent, block, gas, cuts, i, ValueOf(block, p, run))
  {
    StretchEnd(m, c, parent, block.transactions, gas, cuts[i], cuts[i + 1]);
    ValueBetween(block, p, StretchRun(m, c, block, cuts, i, p).value, cuts[i], cuts[i + 1], i == 0, i + 2 == |cuts|);
  }

  lemma ValueBetween<S>(
      block: Block, p: Progress<S>, run: Run<S>, from: nat, to: nat, isFirst: bool, isLast: bool)
    requires p.complete == from && from + |run.receipts| == to <= |block.transactions|
    requires isFirst == (from == 0) && isLast == (to == |block.transactions|)
    ensures ValueOf(block, p, run)
      == BareValue(block.(transactions := block.transactions[from..to]), isFirst, isLast, p.gasUsed, run)
  {}

  lemma StretchReaches<S>(
      m: Machine<S>, c: Context, parent: S, block: Block, gas: seq<U64>, cuts: seq<nat>, i: nat, p: Progress<S>)
    requires RunsThrough(m, c, parent, block.transactions, gas)
    requires i + 2 < |cuts| && Reached(m, c, parent, block, gas, cuts, i, p)
    requires cuts[i] <= cuts[i + 1] < |gas| && (cuts[i] == 0 <==> i == 0) && 0 < cuts[i + 1]
    requires StretchRun(m, c, block, cuts, i, p).Some?
    ensures Reached(m, c, parent, block, gas, cuts, i + 1, After(p, StretchRun(m, c, block, cuts, i, p).value))
  {
    StretchEnd(m, c, parent, block.transactions, gas, cuts[i], cuts[i + 1]);
  }

  /** What is executed next is the next subblock of the plan. */
  lemma NextValueOnPlan<S>(
      m: Machine<S>, c: Context, parent: S, block: Block, limits: seq<nat>, gas: seq<U64>, cuts: seq<nat>,
      i: nat, p: Progress<S>)
    requires RunsThrough(m, c, parent, block.transactions, gas) && PlanStep(limits, cuts, gas, i)
    requires Reached(m, c, parent, block, gas, cuts, i, p)
    ensures var stretch := Execute(m, c, p.state, p.complete == 0, p.gasUsed, block.transactions[p.complete..],
                                   limits[i] + p.gasUsed);
      && stretch.Some?
      && p.complete + |stretch.value.run.receipts| == cuts[i + 1] <= |block.transactions|
      && OnPlan(m, c, parent, block, gas, cuts, i, ValueOf(block, p, stretch.value.run))
      && (i + 1 < |limits| ==>
            && cuts[i + 1] < |block.transactions|
            && Reached(m, c, parent, block, gas, cuts, i + 1, After(p, stretch.value.run)))
      && (i + 1 == |limits| ==> cuts[i + 1] == |block.transactions|)
  {
    NextStretch(m, c, parent, block, gas, cuts, i, p, limits[i]);
  }

  lemma OneMoreOnPlan<S>(
      m: Machine<S>, c: Context, parent: S, block: Block, gas: seq<U64>, cuts: seq<nat>,
      values: seq<PublicValue>, value: PublicValue)
    requires |values| + 1 < |cuts| && AllOnPlan(m, c, parent, block, gas, cuts, values)
    requires OnPlan(m, c, parent, block, gas, cuts, |values|, value)
    ensures AllOnPlan(m, c, parent, block, gas, cuts, values + [value])
  {}

  /** With one more subblock the loop goes on as planned; with the last limit the block is done. */
  lemma NextOnPlan<S>(
      m: Machine<S>, c: Context, parent: S, block: Block, limits: seq<nat>, gas: seq<U64>, cuts: seq<nat>,
      values: seq<PublicValue>, p: Progress<S>)
    requires RunsThrough(m, c, parent, block.transactions, gas) && Planned(limits, cuts, gas)
    requires |values| < |limits| && Going(m, c, parent, block, gas, cuts, values, p)
    ensures p.complete <= |block.transactions|
    ensures var stretch := Execute(m, c, p.state, p.complete == 0, p.gasUsed, block.transactions[p.complete..],
                                   limits[|values|] + p.gasUsed);
      && stretch.Some?
      && p.complete + |stretch.value.run.receipts| <= |block.transactions|
      && var values', p' := values + [ValueOf(block, p, stretch.value.run)], After(p, stretch.value.run);
        if |values'| == |limits| then
          p'.complete == |block.transactions| && AllOnPlan(m, c, parent, block, gas, cuts, values')
        else
          p'.complete < |block.transactions| && Going(m, c, parent, block, gas, cuts, values', p')
  {
    PlannedStep(limits, cuts, gas, |values|);
    NextValueOnPlan(m, c, parent, block, limits, gas, cuts, |values|, p);
    var stretch := Execute(m, c, p.state, p.complete == 0, p.gasUsed, block.transactions[p.complete..],
                           limits[|values|] + p.gasUsed);
    OneMoreOnPlan(m, c, parent, block, gas, cuts, values, ValueOf(block, p, stretch.value.run));
  }
}
