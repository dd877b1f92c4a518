/** Splitting a block's gas into limits for subblocks: the greedy loop after the receipts are fetched. */
module GasSplit {
  import opened Primitives

  const DEFAULT_SUBBLOCK_GAS_LIMIT: nat := 1_000_000

  /** The ways in which the source panics. */
  datatype SplitFailure = ReceiptCount | NoSubblocks | NotAdvanced | TooManySubblocks | GasMismatch

  function Sum(gas: seq<nat>): nat {
    if gas == [] then 0 else Sum(gas[..|gas| - 1]) + gas[|gas| - 1]
  }

  /** The positions where the list is cut: from the start to the end, each piece non-empty. */
  ghost predicate IsCut(cuts: seq<nat>, length: nat) {
    && |cuts| >= 1 && cuts[0] == 0 && cuts[|cuts| - 1] == length
    && Increasing(cuts)
  }

  ghost predicate Increasing(cuts: seq<nat>) {
    forall i, j :: 0 <= i < j < |cuts| ==> cuts[i] < cuts[j]
  }

  /** Each limit is the gas of one piece. */
  ghost predicate LimitsOf(limits: seq<int>, cuts: seq<nat>, gas: seq<U64>) {
    && |cuts| == |limits| + 1
    && (forall i :: 0 <= i < |cuts| ==> cuts[i] <= |gas|)
    && forall i :: 0 <= i < |limits| ==> limits[i] == Sum(gas[..cuts[i + 1]]) - Sum(gas[..cuts[i]])
  }

  /** The share of gas a subblock should have at least. */
  function Share(totalGas: nat, count: nat): nat
    requires count > 0
  {
    (totalGas + count) / count
  }

  /**
   * No piece is much larger than the share, unless a single transaction is: a piece is one
   * transaction, or at most one and a half shares, or less than a share and its first transaction.
   */
  ghost predicate Balanced(limits: seq<int>, cuts: seq<nat>, gas: seq<U64>, share: nat) {
    forall i :: 0 <= i < |limits| && i + 1 < |cuts| && cuts[i] < |gas| ==>
      || cuts[i + 1] == cuts[i] + 1
      || limits[i] <= share + share / 2
      || limits[i] < share + gas[cuts[i]]
  }

  /**
   * When a piece ends, given where it starts, the gas up to which it should go, and whether its first
   * transaction was put there because it was too big for the piece before it: such a transaction is
   * not looked at again. A piece ends with the first transaction that goes past the mark, or before
   * one, but not the first, that goes past it by more than half a share.
   */
  ghost predicate Closed(
      gas: seq<U64>, from: nat, to: nat, carried: bool, early: bool, mark: nat, share: nat)
  {
    && from < to <= |gas|
    && (forall i :: from < i < to && (!carried || i > from + 1) ==> Sum(gas[..i]) <= mark)
    && (forall i :: from + 1 < i <= to ==> Sum(gas[..i]) <= mark + share / 2)
    && (early ==>
          && to < |gas| && Sum(gas[..to + 1]) > mark + share / 2
          && (!carried || to > from + 1 ==> Sum(gas[..to]) <= mark))
    && (!early && to < |gas| ==> Sum(gas[..to]) > mark && (!carried || to > from + 1))
  }

  /** The first transaction of the piece was too big for the piece before it. */
  predicate Carried(early: seq<bool>, k: nat) {
    0 < k <= |early| && early[k - 1]
  }

  ghost predicate AllClosed(gas: seq<U64>, cuts: seq<nat>, early: seq<bool>, share: nat)
    requires |cuts| == |early| + 1
  {
    forall k, next :: 0 <= k && k + 1 == next <= |early| ==>
      Closed(gas, cuts[k], cuts[next], Carried(early, k), early[k], Shares(next, share), share)
  }

  /** The cuts of the greedy rule. */
  ghost predicate Greedy(gas: seq<U64>, cuts: seq<nat>, early: seq<bool>, share: nat) {
    IsCut(cuts, |gas|) && |cuts| == |early| + 1 && AllClosed(gas, cuts, early, share)
  }

  lemma ClosedUnique(
      gas: seq<U64>, from: nat, to: nat, early: bool, to': nat, early': bool, carried: bool, mark: nat, share: nat)
    requires Closed(gas, from, to, carried, early, mark, share) && Closed(gas, from, to', carried, early', mark, share)
    ensures to' <= to && (to' == to ==> early == early')
  {}

  lemma {:induction false} GreedySame(
      gas: seq<U64>, cuts: seq<nat>, early: seq<bool>, cuts': seq<nat>, early': seq<bool>, share: nat, k: nat)
    requires Greedy(gas, cuts, early, share) && Greedy(gas, cuts', early', share)
    requires k <= |early| && k <= |early'|
    ensures cuts[k] == cuts'[k] && Carried(early, k) == Carried(early', k)
  {
    if k > 0 {
      var i := k - 1;
      GreedySame(gas, cuts, early, cuts', early', share, i);
      ClosedUnique(gas, cuts[i], cuts[k], early[i], cuts'[k], early'[i], Carried(early, i), Shares(k, share), share);
      ClosedUnique(gas, cuts[i], cuts'[k], early'[i], cuts[k], early[i], Carried(early, i), Shares(k, share), share);
    }
  }

  /** The rule leaves no choice: there is only one way to cut. */
  lemma GreedyUnique(
      gas: seq<U64>, cuts: seq<nat>, early: seq<bool>, cuts': seq<nat>, early': seq<bool>, share: nat)
    requires Greedy(gas, cuts, early, share) && Greedy(gas, cuts', early', share)
    ensures cuts == cuts'
  {
    forall k | k <= |early| && k <= |early'| ensures 0 <= k ==> cuts[k] == cuts'[k] {
      if 0 <= k {
        GreedySame(gas, cuts, early, cuts', early', share, k);
      }
    }
  }

  /** What the caller provides when the block is as the chain has it. */
  ghost predicate Regular(gas: seq<U64>, totalGas: U64, count: U64) {
    && count > 0 && Sum(gas) == totalGas
    && (forall i :: 0 <= i < |gas| ==> gas[i] > 0)
    && totalGas + count + Share(totalGas, count) / 2 < U64_LIMIT
  }

  /** Where the current piece stands when the loop looks at the next transaction. */
  ghost predicate Piece(gas: seq<U64>, start: nat, i: nat, prev: nat, curr: nat, next: nat, share: nat) {
    && start <= i <= |gas| && prev == Sum(gas[..start]) && curr == Sum(gas[..i])
    && (start == i ==> next <= prev + share)
    && (start < i ==>
          || (next <= prev + share && curr <= next)
          || (next + share / 2 < prev + gas[start] + share && (curr <= next || i == start + 1)))
  }

  method ComputeSubblockGasLimits(gas: seq<U64>, transactions: nat, totalGas: U64, count: U64)
    returns (result: Result<seq<nat>, SplitFailure>, ghost cuts: seq<nat>, ghost early: seq<bool>)
    ensures |gas| != transactions ==> result == Failure(ReceiptCount)
    ensures |gas| == transactions == 0 ==> result == Success([1_000_000])
    ensures |gas| == transactions > 0 && count == 0 ==> result == Failure(NoSubblocks)
    ensures |gas| == transactions > 0 && result.Success? ==>
      |result.value| <= count && Sum(result.value) % U64_LIMIT == totalGas
    ensures |gas| == transactions > 0 && Regular(gas, totalGas, count) ==>
      && result.Success? && 1 <= |result.value| <= count
      && Sum(result.value) == totalGas && (forall i :: 0 <= i < |result.value| ==> result.value[i] > 0)
      && LimitsOf(result.value, cuts, gas) && Greedy(gas, cuts, early, (totalGas + count) / count)
      && Balanced(result.value, cuts, gas, (totalGas + count) / count)
  {
    cuts, early := [0], [];
    if |gas| != transactions {
      return Failure(ReceiptCount), cuts, early;
    }
    if gas == [] {
      return Success([DEFAULT_SUBBLOCK_GAS_LIMIT]), cuts, early;
    }
    if count == 0 {
      return Failure(NoSubblocks), cuts, early;
    }
    var share: U64 := Add(totalGas, count) / count;
    var advanced, limits;
    advanced, limits, cuts, early := SplitLoop(gas, totalGas, count, share);
    if !advanced {
      return Failure(NotAdvanced), cuts, early;
    }
    if |limits| > count {
      return Failure(TooManySubblocks), cuts, early;
    }
    if Regular(gas, totalGas, count) {
      LimitsTotal(limits, cuts, gas);
    }
    var all := SumLoop(limits);
    if all != totalGas {
      return Failure(GasMismatch), cuts, early;
    }
    result := Success(limits);
  }

  method SumLoop(limits: seq<U64>) returns (sum: U64)
    ensures sum == Sum(limits) % U64_LIMIT
  {
    sum := 0;
    for i := 0 to |limits|
      invariant sum == Sum(limits[..i]) % U64_LIMIT
    {
      SumNext(limits, i);
      sum := Add(sum, limits[i]);
    }
    assert limits[..|limits|] == limits;
  }

  /** The loop over the transactions, and the last piece after it; false is its failed assertion. */
  method SplitLoop(gas: seq<U64>, totalGas: U64, count: U64, share: U64)
    returns (advanced: bool, limits: seq<U64>, ghost cuts: seq<nat>, ghost early: seq<bool>)
    requires gas != []
    ensures Regular(gas, totalGas, count) && share == Share(totalGas, count) ==>
      && advanced && 1 <= |limits| <= count && LimitsOf(limits, cuts, gas)
      && Greedy(gas, cuts, early, share) && Balanced(limits, cuts, gas, share)
  {
    ghost var regular := Regular(gas, totalGas, count) && share == Share(totalGas, count);
    var prev: U64, curr: U64, next: U64 := 0, 0, share;
    limits, cuts, early := [], [0], [];
    for i := 0 to |gas|
      invariant regular ==> Split(gas, i, limits, cuts, Counters(prev, curr, next), share)
      invariant regular ==> GreedySoFar(gas, i, cuts, early, share)
    {
      advanced, limits, prev, curr, next, cuts, early :=
        NextTransaction(gas, i, limits, prev, curr, next, share, totalGas, count, cuts, early, regular);
      if !advanced {
        return;
      }
    }
    advanced := true;
    if regular {
      Finish(gas, totalGas, count, limits, cuts, prev, curr, next, share);
      GreedyFinish(gas, limits, cuts, early, Counters(prev, curr, next), share);
    }
    if curr != prev {
      limits := limits + [Subtract(curr, prev)];
      cuts, early := cuts + [|gas|], early + [false];
    }
  }

  /** One turn of the loop. */
  method NextTransaction(
      gas: seq<U64>, i: nat, limits: seq<U64>, prev: U64, curr: U64, next: U64, share: U64,
      ghost totalGas: U64, ghost count: U64, ghost cuts: seq<nat>, ghost early: seq<bool>, ghost regular: bool)
    returns (advanced: bool, limits': seq<U64>, prev': U64, curr': U64, next': U64,
             ghost cuts': seq<nat>, ghost early': seq<bool>)
    requires i < |gas|
    requires regular ==> Regular(gas, totalGas, count) && share == Share(totalGas, count)
    requires regular ==> Split(gas, i, limits, cuts, Counters(prev, curr, next), share)
    requires regular ==> GreedySoFar(gas, i, cuts, early, share)
    ensures regular ==> advanced && Split(gas, i + 1, limits', cuts', Counters(prev', curr', next'), share)
    ensures regular ==> GreedySoFar(gas, i + 1, cuts', early', share)
  {
    var txGas := gas[i];
    advanced := true;
    if curr != prev && Add(curr, txGas) > Add(next, share / 2) {
      advanced := curr > prev;
      limits', cuts', early' := limits + [Subtract(curr, prev)], cuts + [i], early + [true];
      prev', curr', next' := curr, Add(curr, txGas), Add(next, share);
    } else if Add(curr, txGas) > next {
      curr' := Add(curr, txGas);
      limits', cuts', early' := limits + [Subtract(curr', prev)], cuts + [i + 1], early + [false];
      prev', next' := curr', Add(next, share);
    } else {
      limits', cuts', early', prev', curr', next' := limits, cuts, early, prev, Add(curr, txGas), next;
    }
    if regular {
      TurnEnds(gas, totalGas, count, i, limits, cuts, prev, curr, next, share,
               advanced, limits', cuts', prev', curr', next');
      Room(gas, totalGas, count, i, limits, cuts, prev, curr, next, share);
      GreedyTurn(gas, i, limits, cuts, early, Counters(prev, curr, next), share);
    }
  }

  /** What one turn makes of the counters, with sums and differences that wrap around. */
  ghost predicate TurnsTo(
      txGas: U64, i: nat, limits: seq<int>, cuts: seq<nat>, prev: U64, curr: U64, next: U64, share: U64,
      advanced: bool, limits': seq<int>, cuts': seq<nat>, prev': U64, curr': U64, next': U64)
  {
    && curr' == Add(curr, txGas)
    && if curr != prev && curr' > Add(next, share / 2) then
         && advanced == (curr > prev) && prev' == curr && next' == Add(next, share)
         && limits' == limits + [Subtract(curr, prev)] && cuts' == cuts + [i]
       else if curr' > next then
         && advanced && prev' == curr' && next' == Add(next, share)
         && limits' == limits + [Subtract(curr', prev)] && cuts' == cuts + [i + 1]
       else
         advanced && prev' == prev && next' == next && limits' == limits && cuts' == cuts
  }

  lemma TurnEnds(
      gas: seq<U64>, totalGas: U64, count: U64, i: nat,
      limits: seq<int>, cuts: seq<nat>, prev: U64, curr: U64, next: U64, share: U64,
      advanced: bool, limits': seq<int>, cuts': seq<nat>, prev': U64, curr': U64, next': U64)
    requires Regular(gas, totalGas, count) && share == Share(totalGas, count)
    requires Split(gas, i, limits, cuts, Counters(prev, curr, next), share) && i < |gas|
    requires TurnsTo(gas[i], i, limits, cuts, prev, curr, next, share, advanced, limits', cuts', prev', curr', next')
    ensures advanced
    ensures Split(gas, i + 1, limits', cuts', Counters(prev', curr', next'), share) <==> advanced
  {
    Turn(gas, totalGas, count, i, limits, cuts, prev, curr, next, share);
    TurnUnwrapped(gas[i], i, limits, cuts, prev, curr, next, share, advanced, limits', cuts', prev', curr', next');
  }

  /** Without overflow the counters are plain sums and differences. */
  lemma TurnUnwrapped(
      txGas: U64, i: nat, limits: seq<int>, cuts: seq<nat>, prev: U64, curr: U64, next: U64, share: U64,
      advanced: bool, limits': seq<int>, cuts': seq<nat>, prev': U64, curr': U64, next': U64)
    requires prev <= curr && curr + txGas < U64_LIMIT && next + share / 2 < U64_LIMIT
    requires curr + txGas > next ==> next + share < U64_LIMIT
    requires TurnsTo(txGas, i, limits, cuts, prev, curr, next, share, advanced, limits', cuts', prev', curr', next')
    ensures advanced && curr' == curr + txGas
    ensures if curr != prev && curr + txGas > next + share / 2 then
        prev' == curr && next' == next + share && limits' == limits + [curr - prev] && cuts' == cuts + [i]
      else if curr + txGas > next then
        prev' == curr' && next' == next + share && limits' == limits + [curr' - prev] && cuts' == cuts + [i + 1]
      else
        prev' == prev && next' == next && limits' == limits && cuts' == cuts
  {
    assert Add(next, share / 2) == next + share / 2;
    assert Subtract(curr, prev) == curr - prev;
  }

  // Sums.

  lemma SumNext(gas: seq<U64>, i: nat)
    requires i < |gas|
    ensures Sum(gas[..i + 1]) == Sum(gas[..i]) + gas[i]
  {
    assert gas[..i + 1][..i] == gas[..i];
  }

  lemma {:induction false} SumPrefix(gas: seq<U64>, i: nat)
    requires i <= |gas|
    ensures Sum(gas[..i]) <= Sum(gas)
    decreases |gas| - i
  {
    if i < |gas| {
      SumNext(gas, i);
      SumPrefix(gas, i + 1);
    } else {
      assert gas[..i] == gas;
    }
  }

  lemma {:induction false} SumsIncrease(gas: seq<U64>, i: nat, j: nat)
    requires i < j <= |gas| && forall k :: 0 <= k < |gas| ==> gas[k] > 0
    ensures Sum(gas[..i]) < Sum(gas[..j])
    decreases j
  {
    SumNext(gas, j - 1);
    if i < j - 1 {
      SumsIncrease(gas, i, j - 1);
    }
  }

  /** So many times the share. */
  function Shares(n: nat, share: nat): nat {
    if n == 0 then 0 else Shares(n - 1, share) + share
  }

  lemma {:induction false} SharesProduct(n: nat, share: nat)
    ensures Shares(n, share) == n * share
  {
    if n > 0 {
      SharesProduct(n - 1, share);
      assert n * share == (n - 1) * share + share;
    }
  }

  lemma {:induction false} SharesMonotone(m: nat, n: nat, share: nat)
    requires m <= n
    ensures Shares(m, share) <= Shares(n, share)
  {
    if m < n {
      SharesMonotone(m, n - 1, share);
    }
  }

  /** `count` shares are more than the whole. */
  lemma ShareCovers(totalGas: nat, count: nat)
    requires count > 0
    ensures totalGas < Shares(count, Share(totalGas, count)) <= totalGas + count
  {
    var share := Share(totalGas, count);
    assert (totalGas + count) == share * count + (totalGas + count) % count;
    SharesProduct(count, share);
    assert count * share == share * count;
  }

  /** The limits of a cut add up to the gas of the block. */
  lemma {:induction false} LimitsAddUp(limits: seq<U64>, cuts: seq<nat>, gas: seq<U64>)
    requires LimitsOf(limits, cuts, gas) && cuts[0] == 0
    ensures Sum(limits) == Sum(gas[..cuts[|limits|]])
  {
    if limits != [] {
      var last := |limits| - 1;
      LimitsAddUp(limits[..last], cuts[..|limits|], gas);
    }
  }

  /** The limits of a cut of the whole block are positive and add up to its gas. */
  lemma LimitsTotal(limits: seq<U64>, cuts: seq<nat>, gas: seq<U64>)
    requires LimitsOf(limits, cuts, gas) && IsCut(cuts, |gas|)
    requires forall i :: 0 <= i < |gas| ==> gas[i] > 0
    ensures Sum(limits) == Sum(gas)
    ensures forall i :: 0 <= i < |limits| ==> limits[i] > 0
  {
    LimitsAddUp(limits, cuts, gas);
    assert gas[..|gas|] == gas;
    forall i | 0 <= i < |limits| ensures limits[i] > 0 {
      SumsIncrease(gas, cuts[i], cuts[i + 1]);
    }
  }

  // The greedy rule, piece by piece.

  /** The piece that is not closed yet: nothing that was looked at goes past the mark. */
  ghost predicate OpenPiece(gas: seq<U64>, from: nat, i: nat, carried: bool, mark: nat) {
    && from <= i <= |gas| && (carried ==> from < i)
    && forall k :: from < k <= i && (!carried || k > from + 1) ==> Sum(gas[..k]) <= mark
  }

  ghost predicate GreedySoFar(gas: seq<U64>, i: nat, cuts: seq<nat>, early: seq<bool>, share: nat) {
    && |cuts| == |early| + 1 && AllClosed(gas, cuts, early, share)
    && OpenPiece(gas, cuts[|early|], i, Carried(early, |early|), Shares(|cuts|, share))
  }

  lemma OneMoreClosed(gas: seq<U64>, cuts: seq<nat>, early: seq<bool>, cut: nat, carries: bool, share: nat)
    requires |cuts| == |early| + 1 && AllClosed(gas, cuts, early, share)
    requires Closed(gas, cuts[|early|], cut, Carried(early, |early|), carries, Shares(|cuts|, share), share)
    ensures AllClosed(gas, cuts + [cut], early + [carries], share)
  {
    var cuts', early' := cuts + [cut], early + [carries];
    forall k, next | 0 <= k && k + 1 == next <= |early'|
      ensures Closed(gas, cuts'[k], cuts'[next], Carried(early', k), early'[k], Shares(next, share), share)
    {
      assert Carried(early', k) == Carried(early, k);
      if k < |early| {
        assert Closed(gas, cuts[k], cuts[next], Carried(early, k), early[k], Shares(next, share), share);
      }
    }
  }

  lemma GreedyBefore(gas: seq<U64>, i: nat, cuts: seq<nat>, early: seq<bool>, mark: nat, share: nat)
    requires GreedySoFar(gas, i, cuts, early, share) && mark == Shares(|cuts|, share)
    requires cuts[|early|] < i < |gas| && Sum(gas[..i + 1]) > mark + share / 2
    ensures GreedySoFar(gas, i + 1, cuts + [i], early + [true], share)
  {
    OneMoreClosed(gas, cuts, early, i, true, share);
  }

  lemma GreedyAfter(
      gas: seq<U64>, i: nat, next: nat, cuts: seq<nat>, early: seq<bool>, mark: nat, share: nat)
    requires GreedySoFar(gas, i, cuts, early, share) && mark == Shares(|cuts|, share)
    requires i < |gas| && next == i + 1 && Sum(gas[..next]) > mark
    requires cuts[|early|] < i ==> Sum(gas[..next]) <= mark + share / 2
    ensures GreedySoFar(gas, next, cuts + [next], early + [false], share)
  {
    OneMoreClosed(gas, cuts, early, next, false, share);
  }

  /** What one turn of the loop does is what the rule says. */
  lemma GreedyTurn(
      gas: seq<U64>, i: nat, limits: seq<int>, cuts: seq<nat>, early: seq<bool>, counters: Counters, share: nat)
    requires forall k :: 0 <= k < |gas| ==> gas[k] > 0
    requires Split(gas, i, limits, cuts, counters, share) && i < |gas| && GreedySoFar(gas, i, cuts, early, share)
    ensures var curr, next := counters.curr, counters.next;
      if curr != counters.prev && curr + gas[i] > next + share / 2 then
        GreedySoFar(gas, i + 1, cuts + [i], early + [true], share)
      else if curr + gas[i] > next then
        GreedySoFar(gas, i + 1, cuts + [i + 1], early + [false], share)
      else
        GreedySoFar(gas, i + 1, cuts, early, share)
  {
    SumNext(gas, i);
    var curr, next := counters.curr, counters.next;
    if cuts[|early|] < i {
      SumsIncrease(gas, cuts[|early|], i);
    }
    if curr != counters.prev && curr + gas[i] > next + share / 2 {
      GreedyBefore(gas, i, cuts, early, next, share);
    } else if curr + gas[i] > next {
      GreedyAfter(gas, i, i + 1, cuts, early, next, share);
    }
  }

  lemma GreedyFinish(
      gas: seq<U64>, limits: seq<int>, cuts: seq<nat>, early: seq<bool>, counters: Counters, share: nat)
    requires forall k :: 0 <= k < |gas| ==> gas[k] > 0
    requires Split(gas, |gas|, limits, cuts, counters, share) && GreedySoFar(gas, |gas|, cuts, early, share)
    ensures counters.curr != counters.prev ==> AllClosed(gas, cuts + [|gas|], early + [false], share)
  {
    if counters.curr != counters.prev {
      OneMoreClosed(gas, cuts, early, |gas|, false, share);
    }
  }

  // The invariant.

  /** The gas before the current piece, the gas so far, and the mark at which the piece should end. */
  datatype Counters = Counters(prev: nat, curr: nat, next: nat)

  /** What the loop has done when it looks at transaction `i`. */
  ghost predicate Split(gas: seq<U64>, i: nat, limits: seq<int>, cuts: seq<nat>, counters: Counters, share: nat) {
    match counters
    case Counters(prev, curr, next) =>
    && i <= |gas| && |cuts| == |limits| + 1 && cuts[0] == 0 && cuts[|limits|] <= i
    && Increasing(cuts) && LimitsOf(limits, cuts, gas) && Balanced(limits, cuts, gas, share)
    && Piece(gas, cuts[|limits|], i, prev, curr, next, share)
    && next == Shares(|limits| + 1, share)
    && (|limits| > 0 ==> curr > Shares(|limits|, share))
  }

  /** The counters stay far enough from overflowing. */
  lemma Room(
      gas: seq<U64>, totalGas: U64, count: U64, i: nat,
      limits: seq<int>, cuts: seq<nat>, prev: nat, curr: nat, next: nat, share: nat)
    requires Regular(gas, totalGas, count) && share == Share(totalGas, count)
    requires Split(gas, i, limits, cuts, Counters(prev, curr, next), share) && i < |gas|
    ensures |limits| < count
    ensures prev <= curr && curr + gas[i] <= totalGas
    ensures next + share / 2 < U64_LIMIT
    ensures curr + gas[i] > next ==> next + share < U64_LIMIT
  {
    SumNext(gas, i);
    SumPrefix(gas, i + 1);
    if cuts[|limits|] < i {
      SumsIncrease(gas, cuts[|limits|], i);
    }
    PushesBounded(|limits|, share, curr, totalGas, count);
    if curr + gas[i] > next {
      PushesBounded(|limits| + 1, share, curr + gas[i], totalGas, count);
    }
  }

  /** As long as pushes come with that many shares, there are fewer than `count`. */
  lemma PushesBounded(pushes: nat, share: nat, curr: nat, totalGas: nat, count: nat)
    requires count > 0 && share == Share(totalGas, count)
    requires pushes > 0 ==> curr > Shares(pushes, share)
    requires curr <= totalGas
    ensures pushes < count && Shares(pushes + 1, share) <= totalGas + count
  {
    ShareCovers(totalGas, count);
    if pushes >= count {
      SharesMonotone(count, pushes, share);
    } else {
      SharesMonotone(pushes + 1, count, share);
    }
  }

  lemma CutAppended(gas: seq<U64>, limits: seq<int>, cuts: seq<nat>, limit: int, cut: nat, share: nat)
    requires |cuts| == |limits| + 1 && Increasing(cuts) && cuts[0] == 0
    requires LimitsOf(limits, cuts, gas) && Balanced(limits, cuts, gas, share)
    requires cuts[|limits|] < cut <= |gas|
    requires limit == Sum(gas[..cut]) - Sum(gas[..cuts[|limits|]])
    requires cut == cuts[|limits|] + 1 || limit <= share + share / 2 || limit < share + gas[cuts[|limits|]]
    ensures Increasing(cuts + [cut]) && (cuts + [cut])[0] == 0 && (cuts + [cut])[|limits| + 1] == cut
    ensures LimitsOf(limits + [limit], cuts + [cut], gas)
    ensures Balanced(limits + [limit], cuts + [cut], gas, share)
  {
    var limits', cuts' := limits + [limit], cuts + [cut];
    BalancedAppended(gas, limits, cuts, limit, cut, share);
    forall i | 0 <= i < |limits'|
      ensures limits'[i] == Sum(gas[..cuts'[i + 1]]) - Sum(gas[..cuts'[i]])
    {
      assert i < |limits| ==> limits'[i] == limits[i] && cuts'[i] == cuts[i] && cuts'[i + 1] == cuts[i + 1];
    }
  }

  lemma BalancedAppended(gas: seq<U64>, limits: seq<int>, cuts: seq<nat>, limit: int, cut: nat, share: nat)
    requires |cuts| == |limits| + 1 && Balanced(limits, cuts, gas, share) && cuts[|limits|] < cut <= |gas|
    requires cut == cuts[|limits|] + 1 || limit <= share + share / 2 || limit < share + gas[cuts[|limits|]]
    ensures Balanced(limits + [limit], cuts + [cut], gas, share)
  {}

  /** A piece is closed before a big transaction, which opens the next one. */
  lemma PushBefore(
      gas: seq<U64>, i: nat, limits: seq<int>, cuts: seq<nat>, prev: nat, curr: nat, next: nat, share: nat)
    requires forall k :: 0 <= k < |gas| ==> gas[k] > 0
    requires Split(gas, i, limits, cuts, Counters(prev, curr, next), share) && i < |gas|
    requires curr != prev && curr + gas[i] > next + share / 2
    ensures Split(gas, i + 1, limits + [curr - prev], cuts + [i], Counters(curr, curr + gas[i], next + share), share)
  {
    SumNext(gas, i);
    CutAppended(gas, limits, cuts, curr - prev, i, share);
  }

  /** A piece that is closed within half a share of the mark is not too large. */
  lemma ClosedPiece(gas: seq<U64>, start: nat, i: nat, prev: nat, curr: nat, next: nat, share: nat)
    requires forall k :: 0 <= k < |gas| ==> gas[k] > 0
    requires Piece(gas, start, i, prev, curr, next, share) && i < |gas|
    requires curr == prev || curr + gas[i] <= next + share / 2
    ensures
      || start == i
      || curr + gas[i] - prev <= share + share / 2
      || curr + gas[i] - prev < share + gas[start]
  {
    if start < i {
      SumsIncrease(gas, start, i);
    }
  }

  /** A piece is closed after the transaction that goes past the next share. */
  lemma PushAfter(
      gas: seq<U64>, i: nat, limits: seq<int>, cuts: seq<nat>, prev: nat, curr: nat, next: nat, share: nat)
    requires forall k :: 0 <= k < |gas| ==> gas[k] > 0
    requires Split(gas, i, limits, cuts, Counters(prev, curr, next), share) && i < |gas|
    requires curr == prev || curr + gas[i] <= next + share / 2
    requires curr + gas[i] > next
    ensures Split(gas, i + 1, limits + [curr + gas[i] - prev], cuts + [i + 1],
                  Counters(curr + gas[i], curr + gas[i], next + share), share)
  {
    SumNext(gas, i);
    ClosedPiece(gas, cuts[|limits|], i, prev, curr, next, share);
    CutAppended(gas, limits, cuts, curr + gas[i] - prev, i + 1, share);
  }

  /** The transaction joins the piece. */
  lemma KeepPiece(
      gas: seq<U64>, i: nat, limits: seq<int>, cuts: seq<nat>, prev: nat, curr: nat, next: nat, share: nat)
    requires forall k :: 0 <= k < |gas| ==> gas[k] > 0
    requires Split(gas, i, limits, cuts, Counters(prev, curr, next), share) && i < |gas|
    requires curr + gas[i] <= next
    ensures Split(gas, i + 1, limits, cuts, Counters(prev, curr + gas[i], next), share)
  {
    SumNext(gas, i);
  }

  /** In each of its three cases, one turn of the loop does not overflow and keeps the invariant. */
  lemma Turn(
      gas: seq<U64>, totalGas: U64, count: U64, i: nat,
      limits: seq<int>, cuts: seq<nat>, prev: nat, curr: nat, next: nat, share: nat)
    requires Regular(gas, totalGas, count) && share == Share(totalGas, count)
    requires Split(gas, i, limits, cuts, Counters(prev, curr, next), share) && i < |gas|
    ensures prev <= curr && curr + gas[i] < U64_LIMIT && next + share / 2 < U64_LIMIT
    ensures curr + gas[i] > next ==> next + share < U64_LIMIT
    ensures var curr' := curr + gas[i];
      if curr != prev && curr' > next + share / 2 then
        Split(gas, i + 1, limits + [curr - prev], cuts + [i], Counters(curr, curr', next + share), share)
      else if curr' > next then
        Split(gas, i + 1, limits + [curr' - prev], cuts + [i + 1], Counters(curr', curr', next + share), share)
      else
        Split(gas, i + 1, limits, cuts, Counters(prev, curr', next), share)
  {
    Room(gas, totalGas, count, i, limits, cuts, prev, curr, next, share);
    if curr != prev && curr + gas[i] > next + share / 2 {
      PushBefore(gas, i, limits, cuts, prev, curr, next, share);
    } else if curr + gas[i] > next {
      PushAfter(gas, i, limits, cuts, prev, curr, next, share);
    } else {
      KeepPiece(gas, i, limits, cuts, prev, curr, next, share);
    }
  }

  /** After the last transaction: what is left is the last piece. */
  lemma Finish(
      gas: seq<U64>, totalGas: U64, count: U64,
      limits: seq<int>, cuts: seq<nat>, prev: nat, curr: nat, next: nat, share: nat)
    requires gas != [] && Regular(gas, totalGas, count) && share == Share(totalGas, count)
    requires Split(gas, |gas|, limits, cuts, Counters(prev, curr, next), share)
    ensures prev <= curr <= totalGas
    ensures curr == prev ==> 1 <= |limits| <= count && IsCut(cuts, |gas|)
    ensures curr != prev ==>
      && |limits| + 1 <= count && IsCut(cuts + [|gas|], |gas|)
      && LimitsOf(limits + [curr - prev], cuts + [|gas|], gas)
      && Balanced(limits + [curr - prev], cuts + [|gas|], gas, share)
  {
    assert gas[..|gas|] == gas;
    PushesBounded(|limits|, share, curr, totalGas, count);
    var start := cuts[|limits|];
    if start < |gas| {
      SumsIncrease(gas, start, |gas|);
      CutAppended(gas, limits, cuts, curr - prev, |gas|, share);
    }
  }
}
