/** Putting the subblocks of a block back together: the checks of the aggregator, and what they are worth. */
module Aggregation {
  import opened Primitives
  import opened Requests
  import opened Subblocks

  /** The hash of a header. Nothing is known about it except that it is a function. */
  const HEADER_HASH: Header -> B256

  const OMMERS_ROOT: seq<Bytes> -> B256
  const TRANSACTIONS_ROOT: seq<Transaction> -> B256
  const WITHDRAWALS_ROOT: seq<Bytes> -> B256

  function NoRoot(): B256 {
    seq(32, _ => 0)
  }

  datatype AggregationInput = AggregationInput(currentBlock: Block, ancestors: seq<Header>)

  /** The consensus rules for the header, the receipts and the requests of a whole block. */
  type Rules = (Header, seq<Receipt>, seq<Request>) -> bool

  /** The assertions of the source that can fail, in the order of the source. */
  datatype AggregationPanic =
    | BlockHashesDiffer
    | GasNotContinuous
    | WrongFlags
    | OtherBlock
    | StateRootGap
    | MergeFailed
    | BrokenHeaderChain
    | NoSubblocks
    | BlockHashesWrong
    | TransactionsDiffer
    | LogsBloomDiffers
    | RulesViolated
    | StateRootDiffers
    | NoAncestors

  // What the subblocks add up to.

  function ReceiptsOf(values: seq<PublicValue>): seq<Receipt> {
    if values == [] then []
    else ReceiptsOf(values[..|values| - 1]) + values[|values| - 1].output.receipts
  }

  function RequestsOf(values: seq<PublicValue>): seq<Request> {
    if values == [] then []
    else RequestsOf(values[..|values| - 1]) + values[|values| - 1].output.requests
  }

  function TransactionsOf(values: seq<PublicValue>): seq<Transaction> {
    if values == [] then []
    else TransactionsOf(values[..|values| - 1]) + values[|values| - 1].input.currentBlock.transactions
  }

  function BloomsOf(values: seq<PublicValue>): Bloom {
    if values == [] then {} else BloomsOf(values[..|values| - 1]) + values[|values| - 1].output.logsBloom
  }

  function RootAfter(root: B256, values: seq<PublicValue>): B256 {
    if values == [] then root else values[|values| - 1].output.outputStateRoot
  }

  function Accumulated(root: B256, values: seq<PublicValue>): SubblockOutput {
    SubblockOutput(NoRoot(), RootAfter(root, values), BloomsOf(values), ReceiptsOf(values), RequestsOf(values))
  }

  /** The block hashes that a chain of headers shows; a later header replaces an earlier one. */
  function HashesOf(ancestors: seq<Header>): map<U64, B256> {
    if ancestors == [] then map[]
    else
      var last := ancestors[|ancestors| - 1];
      HashesOf(ancestors[..|ancestors| - 1])[last.number := HEADER_HASH(last)]
  }

  function Child(input: AggregationInput, i: nat): Header
    requires i <= |input.ancestors|
  {
    if i == 0 then input.currentBlock.header else input.ancestors[i - 1]
  }

  predicate IsParent(parent: Header, child: Header) {
    parent.number == Subtract(child.number, 1) && HEADER_HASH(parent) == child.parentHash
  }

  // What is accepted.

  /** The flags as the source checks them: both of them only for the subblocks in the middle. */
  predicate FlagsPinned(i: nat, count: nat, isFirst: bool, isLast: bool) {
    && (i == 0 ==> isFirst)
    && (i == count - 1 ==> isLast)
    && (0 < i < count - 1 ==> !isFirst && !isLast)
  }

  predicate SameBlock(a: Block, b: Block) {
    a.header == b.header && a.ommers == b.ommers && a.withdrawals == b.withdrawals
  }

  ghost predicate SubblockAccepted(values: seq<PublicValue>, i: nat, block: Block, parentRoot: B256)
    requires i < |values|
  {
    var input := values[i].input;
    && input.blockHashes == values[0].input.blockHashes
    && input.startingGasUsed == GasAfter(0, ReceiptsOf(values[..i]))
    && FlagsPinned(i, |values|, input.isFirst, input.isLast)
    && SameBlock(input.currentBlock, block)
    && values[i].output.inputStateRoot == RootAfter(parentRoot, values[..i])
  }

  ghost predicate SubblocksAccepted(values: seq<PublicValue>, upTo: nat, block: Block, parentRoot: B256)
    requires upTo <= |values|
  {
    forall i :: 0 <= i < upTo ==> SubblockAccepted(values, i, block, parentRoot)
  }

  ghost predicate Chained(input: AggregationInput, upTo: nat)
    requires upTo <= |input.ancestors|
  {
    forall i {:trigger Child(input, i)} :: 0 <= i < upTo ==> IsParent(input.ancestors[i], Child(input, i))
  }

  /** All checks of the aggregator. */
  ghost predicate Accepts(values: seq<PublicValue>, input: AggregationInput, parentRoot: B256, rules: Rules) {
    var header := input.currentBlock.header;
    && values != [] && input.ancestors != []
    && SubblocksAccepted(values, |values|, input.currentBlock, parentRoot)
    && Chained(input, |input.ancestors|)
    && values[0].input.blockHashes == HashesOf(input.ancestors)
    && TransactionsOf(values) == input.currentBlock.transactions
    && BloomsOf(values) == header.logsBloom
    && !MergePanics(RequestsOf(values))
    && rules(header, ReceiptsOf(values), AfterMerge(RequestsOf(values)))
    && RootAfter(parentRoot, values) == header.stateRoot
  }

  /** The derived header has the parent's hash and the roots of the block's body, and is else the block's header. */
  ghost predicate IsDerived(derived: Header, input: AggregationInput) {
    var block, header := input.currentBlock, input.currentBlock.header;
    && input.ancestors != [] && derived.parentHash == HEADER_HASH(input.ancestors[0])
    && derived.ommersHash == OMMERS_ROOT(block.ommers)
    && derived.transactionsRoot == TRANSACTIONS_ROOT(block.transactions)
    && (block.withdrawals.None? ==> derived.withdrawalsRoot == None)
    && (block.withdrawals.Some? ==> derived.withdrawalsRoot == Some(WITHDRAWALS_ROOT(block.withdrawals.value)))
    && derived.number == header.number && derived.stateRoot == header.stateRoot
    && derived.logsBloom == header.logsBloom && derived.requestsHash == header.requestsHash
    && derived.rest == header.rest
  }

  /** The header of a block has the roots of the block's body. */
  ghost predicate RootsFit(block: Block) {
    && block.header.ommersHash == OMMERS_ROOT(block.ommers)
    && block.header.transactionsRoot == TRANSACTIONS_ROOT(block.transactions)
    && (block.withdrawals.None? <==> block.header.withdrawalsRoot.None?)
    && (block.withdrawals.Some? ==> block.header.withdrawalsRoot == Some(WITHDRAWALS_ROOT(block.withdrawals.value)))
  }

  /** Every ancestor's number and hash are one less than the number, and the parent hash, of the header after it. */
  ghost predicate IsChain(input: AggregationInput) {
    forall i {:trigger Child(input, i)} :: 0 <= i < |input.ancestors| ==>
      var parent, child := input.ancestors[i], Child(input, i);
      parent.number == (if child.number == 0 then U64_LIMIT - 1 else child.number - 1)
        && HEADER_HASH(parent) == child.parentHash
  }

  lemma ChainedIff(input: AggregationInput)
    ensures Chained(input, |input.ancestors|) <==> IsChain(input)
  {
    forall i | 0 <= i < |input.ancestors|
      ensures var parent, child := input.ancestors[i], Child(input, i);
        IsParent(parent, child) <==>
          && parent.number == (if child.number == 0 then U64_LIMIT - 1 else child.number - 1)
          && HEADER_HASH(parent) == child.parentHash
    {}
  }

  // The checks of one subblock, one by one.

  /** The gas after all receipts so far: that of the last receipt there is. */
  lemma {:induction false} GasSoFar(values: seq<PublicValue>, i: nat)
    requires i <= |values|
    ensures (forall j :: 0 <= j < i ==> values[j].output.receipts == []) ==> ReceiptsOf(values[..i]) == []
    ensures i > 0 && values[i - 1].output.receipts != [] ==>
      GasAfter(0, ReceiptsOf(values[..i])) == LastGas(values[i - 1].output.receipts)
    ensures i > 0 && values[i - 1].output.receipts == [] ==>
      GasAfter(0, ReceiptsOf(values[..i])) == GasAfter(0, ReceiptsOf(values[..i - 1]))
  {
    if i > 0 {
      assert values[..i][..i - 1] == values[..i - 1];
      GasSoFar(values, i - 1);
    }
  }

  function LastGas(receipts: seq<Receipt>): nat
    requires receipts != []
  {
    receipts[|receipts| - 1].cumulativeGasUsed
  }

  /** What a subblock must say about its place: the root before it, and whether it begins or ends the block. */
  lemma AcceptedPlace(values: seq<PublicValue>, i: nat, block: Block, parentRoot: B256)
    requires i < |values| && SubblockAccepted(values, i, block, parentRoot)
    ensures values[i].output.inputStateRoot == if i == 0 then parentRoot else values[i - 1].output.outputStateRoot
    ensures i == 0 ==> values[i].input.isFirst && values[i].input.startingGasUsed == 0
    ensures i == |values| - 1 ==> values[i].input.isLast
    ensures 0 < i < |values| - 1 ==> !values[i].input.isFirst && !values[i].input.isLast
    ensures values[i].input.currentBlock.header == block.header && values[i].input.currentBlock.ommers == block.ommers
    ensures values[i].input.currentBlock.withdrawals == block.withdrawals
    ensures i > 0 && values[i - 1].output.receipts != [] ==>
      values[i].input.startingGasUsed == LastGas(values[i - 1].output.receipts)
  {
    GasSoFar(values, i);
    if i > 0 {
      assert values[..i][i - 1] == values[i - 1];
    }
  }

  // The block hashes, one by one.

  lemma {:induction false} HashesOfIff(ancestors: seq<Header>, number: U64)
    ensures number in HashesOf(ancestors) <==> exists i :: 0 <= i < |ancestors| && ancestors[i].number == number
    decreases |ancestors|
  {
    if ancestors != [] {
      var front := ancestors[..|ancestors| - 1];
      HashesOfIff(front, number);
      if i :| 0 <= i < |front| && front[i].number == number {
        assert ancestors[i].number == number;
      }
      if i :| 0 <= i < |ancestors| && ancestors[i].number == number {
        assert i < |front| ==> front[i].number == number;
      }
    }
  }

  /** Under the number of each header is the hash of that header, if no other has its number. */
  lemma {:induction false} HashesOfAt(ancestors: seq<Header>, i: nat)
    requires i < |ancestors|
    requires forall j :: i < j < |ancestors| ==> ancestors[j].number != ancestors[i].number
    ensures ancestors[i].number in HashesOf(ancestors)
    ensures HashesOf(ancestors)[ancestors[i].number] == HEADER_HASH(ancestors[i])
    decreases |ancestors|
  {
    if i < |ancestors| - 1 {
      HashesOfAt(ancestors[..|ancestors| - 1], i);
    }
  }

  /** A number less `k`, which wraps around. */
  function Down(n: U64, k: nat): U64
    requires k <= U64_LIMIT
  {
    if k <= n then n - k else n - k + U64_LIMIT
  }

  /** The numbers of a chain go down by one, so up to the range of 64 bits they differ. */
  lemma {:induction false} ChainNumbers(input: AggregationInput, i: nat)
    requires Chained(input, |input.ancestors|) && i < |input.ancestors| <= U64_LIMIT
    ensures input.ancestors[i].number == Down(input.currentBlock.header.number, i + 1)
    decreases i
  {
    if i > 0 {
      ChainNumbers(input, i - 1);
    }
    assert IsParent(input.ancestors[i], Child(input, i));
  }

  /**
   * The block hashes of a chain: each ancestor's hash under its number, which is also the parent
   * hash in the header that comes after it, and nothing else.
   */
  lemma ChainHashes(input: AggregationInput, i: nat)
    requires Chained(input, |input.ancestors|) && i < |input.ancestors| <= U64_LIMIT
    ensures var hashes, ancestor := HashesOf(input.ancestors), input.ancestors[i];
      && ancestor.number in hashes && hashes[ancestor.number] == HEADER_HASH(ancestor)
      && HEADER_HASH(ancestor) == Child(input, i).parentHash
    ensures HashesOf(input.ancestors).Keys == set j | 0 <= j < |input.ancestors| :: input.ancestors[j].number
  {
    assert IsParent(input.ancestors[i], Child(input, i));
    ChainNumbers(input, i);
    forall j | i < j < |input.ancestors| ensures input.ancestors[j].number != input.ancestors[i].number {
      ChainNumbers(input, j);
    }
    HashesOfAt(input.ancestors, i);
    forall number ensures number in HashesOf(input.ancestors)
      <==> exists j :: 0 <= j < |input.ancestors| && input.ancestors[j].number == number
    {
      HashesOfIff(input.ancestors, number);
    }
  }

  // The aggregator.

  /** The cumulative output, updated in place. */
  class CumulativeOutput {
    var inputStateRoot: B256
    var outputStateRoot: B256
    var logsBloom: Bloom
    var receipts: seq<Receipt>
    var requests: seq<Request>

    function View(): SubblockOutput
      reads this
    {
      SubblockOutput(inputStateRoot, outputStateRoot, logsBloom, receipts, requests)
    }

    constructor (root: B256)
      ensures View() == Accumulated(root, [])
    {
      inputStateRoot, outputStateRoot, logsBloom, receipts, requests := NoRoot(), root, {}, [], [];
    }

    /** Adds the output of the next subblock; false is the failed assertion on the state roots. */
    method Extend(other: SubblockOutput) returns (ok: bool)
      modifies this
      ensures ok <==> old(outputStateRoot) == other.inputStateRoot
      ensures ok ==> View() == SubblockOutput(
        old(inputStateRoot), other.outputStateRoot, old(logsBloom) + other.logsBloom,
        old(receipts) + other.receipts, old(requests) + other.requests)
      ensures !ok ==> View() == old(View())
    {
      if outputStateRoot != other.inputStateRoot {
        return false;
      }
      outputStateRoot := other.outputStateRoot;
      logsBloom := logsBloom + other.logsBloom;
      receipts := receipts + other.receipts;
      requests := requests + other.requests;
      ok := true;
    }

    /** Merges the requests by type; false is the division by zero. */
    method Merge() returns (ok: bool)
      modifies this
      ensures ok <==> !MergePanics(old(requests))
      ensures View() == old(View()).(requests := if ok then AfterMerge(old(requests)) else old(requests))
    {
      var merged := MergeRequests(requests);
      ok := merged.Success?;
      if ok {
        requests := merged.value;
      }
    }
  }

  method ExecuteAggregation(values: seq<PublicValue>, input: AggregationInput, parentRoot: B256, rules: Rules)
    returns (result: Result<Header, AggregationPanic>)
    ensures result.Success? <==> Accepts(values, input, parentRoot, rules)
    ensures result.Success? ==> IsDerived(result.value, input)
    ensures result.Success? ==> (result.value == input.currentBlock.header <==> RootsFit(input.currentBlock))
  {
    var panic, cumulative, transactions := AddSubblocks(values, input.currentBlock, parentRoot);
    if panic.Some? {
      return Failure(panic.value);
    }
    var merged := cumulative.Merge();
    if !merged {
      return Failure(MergeFailed);
    }
    panic := CheckWhole(values, input, cumulative.View(), transactions, rules);
    if panic.Some? {
      return Failure(panic.value);
    }
    if input.ancestors == [] {
      return Failure(NoAncestors);
    }
    var header := input.currentBlock.header;
    header := header.(parentHash := HEADER_HASH(input.ancestors[0]));
    header := header.(ommersHash := OMMERS_ROOT(input.currentBlock.ommers));
    header := header.(transactionsRoot := TRANSACTIONS_ROOT(input.currentBlock.transactions));
    header := header.(withdrawalsRoot := match input.currentBlock.withdrawals
                                         case None => None
                                         case Some(withdrawals) => Some(WITHDRAWALS_ROOT(withdrawals)));
    header := header.(logsBloom := cumulative.logsBloom);
    assert IsParent(input.ancestors[0], Child(input, 0));
    result := Success(header);
  }

  /** The loop over the public values. */
  method AddSubblocks(values: seq<PublicValue>, block: Block, parentRoot: B256)
    returns (panic: Option<AggregationPanic>, cumulative: CumulativeOutput, transactions: seq<Transaction>)
    ensures fresh(cumulative)
    ensures panic.None? <==> SubblocksAccepted(values, |values|, block, parentRoot)
    ensures panic.None? ==>
      cumulative.View() == Accumulated(parentRoot, values) && transactions == TransactionsOf(values)
  {
    cumulative := new CumulativeOutput(parentRoot);
    transactions := [];
    for i := 0 to |values|
      invariant fresh(cumulative) && cumulative.View() == Accumulated(parentRoot, values[..i])
      invariant transactions == TransactionsOf(values[..i])
      invariant SubblocksAccepted(values, i, block, parentRoot)
    {
      assert values[..i + 1][..i] == values[..i];
      panic := CheckSubblock(values, i, block, cumulative.receipts);
      if panic.Some? {
        assert !SubblockAccepted(values, i, block, parentRoot);
        return;
      }
      var ok := cumulative.Extend(values[i].output);
      if !ok {
        assert !SubblockAccepted(values, i, block, parentRoot);
        panic := Some(StateRootGap);
        return;
      }
      transactions := transactions + values[i].input.currentBlock.transactions;
    }
    assert values[..|values|] == values;
    panic := None;
  }

  /** The checks after the loop. */
  method CheckWhole(
      values: seq<PublicValue>, input: AggregationInput, output: SubblockOutput,
      transactions: seq<Transaction>, rules: Rules)
    returns (panic: Option<AggregationPanic>)
    ensures panic.None? <==>
      && values != [] && Chained(input, |input.ancestors|)
      && values[0].input.blockHashes == HashesOf(input.ancestors)
      && transactions == input.currentBlock.transactions
      && output.logsBloom == input.currentBlock.header.logsBloom
      && rules(input.currentBlock.header, output.receipts, output.requests)
      && output.outputStateRoot == input.currentBlock.header.stateRoot
  {
    var header := input.currentBlock.header;
    var hashes := CheckHeaders(input);
    panic :=
      if hashes.None? then Some(BrokenHeaderChain)
      else if values == [] then Some(NoSubblocks)
      else if hashes.value != values[0].input.blockHashes then Some(BlockHashesWrong)
      else if transactions != input.currentBlock.transactions then Some(TransactionsDiffer)
      else if output.logsBloom != header.logsBloom then Some(LogsBloomDiffers)
      else if !rules(header, output.receipts, output.requests) then Some(RulesViolated)
      else if output.outputStateRoot != header.stateRoot then Some(StateRootDiffers)
      else None;
  }

  /** The assertions on the input of one subblock. */
  method CheckSubblock(values: seq<PublicValue>, i: nat, block: Block, receipts: seq<Receipt>)
    returns (panic: Option<AggregationPanic>)
    requires i < |values|
    ensures panic.None? <==>
      && values[i].input.blockHashes == values[0].input.blockHashes
      && values[i].input.startingGasUsed == GasAfter(0, receipts)
      && FlagsPinned(i, |values|, values[i].input.isFirst, values[i].input.isLast)
      && SameBlock(values[i].input.currentBlock, block)
  {
    var input := values[i].input;
    if input.blockHashes != values[0].input.blockHashes {
      return Some(BlockHashesDiffer);
    }
    if input.startingGasUsed != (if receipts == [] then 0 else receipts[|receipts| - 1].cumulativeGasUsed) {
      return Some(GasNotContinuous);
    }
    if i == 0 && !input.isFirst {
      return Some(WrongFlags);
    }
    if i == |values| - 1 && !input.isLast {
      return Some(WrongFlags);
    }
    if i > 0 && i < |values| - 1 && (input.isFirst || input.isLast) {
      return Some(WrongFlags);
    }
    if input.currentBlock.header != block.header
       || input.currentBlock.ommers != block.ommers
       || input.currentBlock.withdrawals != block.withdrawals
       || input.currentBlock.header.requestsHash != block.header.requestsHash
    {
      return Some(OtherBlock);
    }
    panic := None;
  }

  /** Rebuilds the block hashes from the ancestors' headers. */
  method CheckHeaders(input: AggregationInput) returns (hashes: Option<map<U64, B256>>)
    ensures hashes.Some? <==> Chained(input, |input.ancestors|)
    ensures hashes.Some? ==> hashes.value == HashesOf(input.ancestors)
  {
    var rebuilt: map<U64, B256> := map[];
    for i := 0 to |input.ancestors|
      invariant Chained(input, i)
      invariant rebuilt == HashesOf(input.ancestors[..i])
    {
      var parent, child := input.ancestors[i], Child(input, i);
      if parent.number != Subtract(child.number, 1) || HEADER_HASH(parent) != child.parentHash {
        return None;
      }
      assert input.ancestors[..i + 1][..i] == input.ancestors[..i];
      rebuilt := rebuilt[parent.number := HEADER_HASH(parent)];
    }
    assert input.ancestors[..|input.ancestors|] == input.ancestors;
    hashes := Some(rebuilt);
  }
}
