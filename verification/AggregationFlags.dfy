/** The flags decide: acceptance means what it should exactly when the flags that are not checked fit. */
module AggregationFlags {
  import opened Primitives
  import opened Subblocks
  import opened Aggregation
  import opened AggregationMeaning

  /** An aggregation together with the machine that made the public values. */
  datatype Trial<!S> = Trial(
    machine: Machine<S>, rules: Rules, parent: S, starts: seq<S>,
    values: seq<PublicValue>, input: AggregationInput)
  {
    /** The public values are genuine, roots bind the states involved, and the aggregator accepts. */
    ghost predicate Sound() {
      && AllGenuine(machine, values, starts)
      && RootsBind(machine, values, starts, parent)
      && Accepts(values, input, machine.root(parent), rules)
    }

    ghost predicate Meant() {
      Means(machine, rules, parent, input)
    }
  }

  /** The flags that the aggregator lets through. */
  ghost predicate Pinned(flags: seq<(bool, bool)>) {
    flags != [] && forall i :: 0 <= i < |flags| ==> FlagsPinned(i, |flags|, flags[i].0, flags[i].1)
  }

  /** All sound aggregations with these flags, on machines with such states, mean what they should. */
  ghost predicate AlwaysMeant<S(!new)>(flags: seq<(bool, bool)>) {
    forall t: Trial<S> :: FlagsOf(t.values) == flags && t.Sound() ==> t.Meant()
  }

  // A machine that counts how often a block was started or ended.

  function Word(n: nat): B256 {
    [n % 256] + seq(31, _ => 0)
  }

  function Tick(word: B256): B256 {
    var first: int := word[0];
    Word(first + 1)
  }

  function Counting(): Machine<B256> {
    Machine((_, word) => Tick(word), (_, _, _, _) => None, (_, word) => (Tick(word), []), word => word)
  }

  function Ticks(flags: seq<(bool, bool)>): nat {
    if flags == [] then 0
    else
      var (isFirst, isLast) := flags[|flags| - 1];
      Ticks(flags[..|flags| - 1]) + (if isFirst then 1 else 0) + (if isLast then 1 else 0)
  }

  lemma TickWord(n: nat)
    ensures Tick(Word(n)) == Word(n + 1)
  {}

  /** With flags that do not fit, the block is started or ended once too often. */
  lemma {:induction false} TicksMiddle(flags: seq<(bool, bool)>, k: nat)
    requires Pinned(flags) && 0 < k < |flags|
    ensures Ticks(flags[..k]) == 1 + if flags[0].1 then 1 else 0
  {
    assert flags[..k][..k - 1] == flags[..k - 1] && flags[..k][k - 1] == flags[k - 1];
    if k > 1 {
      TicksMiddle(flags, k - 1);
    } else {
      assert flags[..0] == [];
    }
  }

  lemma TicksTooMany(flags: seq<(bool, bool)>)
    requires Pinned(flags) && !FlagsFit(flags)
    ensures 2 < Ticks(flags) <= 4
  {
    TicksMiddle(flags, |flags| - 1);
  }

  // Its public values.

  function EmptyHeader(number: U64, parentHash: B256, root: B256): Header {
    Header(number, parentHash, NoRoot(), root, NoRoot(), None, {}, None, [])
  }

  function Ancestor(): Header {
    EmptyHeader(0, NoRoot(), NoRoot())
  }

  function EmptyBlock(root: B256): Block {
    Block(EmptyHeader(1, HEADER_HASH(Ancestor()), root), [], [], None)
  }

  function CountedValue(flags: seq<(bool, bool)>, i: nat): PublicValue
    requires i < |flags|
  {
    PublicValue(
      SubblockInput(EmptyBlock(Word(Ticks(flags))), HashesOf([Ancestor()]), flags[i].0, flags[i].1, 0),
      SubblockOutput(Word(Ticks(flags[..i])), Word(Ticks(flags[..i + 1])), {}, [], []))
  }

  function CountedValues(flags: seq<(bool, bool)>): (values: seq<PublicValue>)
    ensures |values| == |flags|
    ensures forall i :: 0 <= i < |flags| ==> values[i] == CountedValue(flags, i)
  {
    seq(|flags|, i requires 0 <= i < |flags| => CountedValue(flags, i))
  }

  function CountedStarts(flags: seq<(bool, bool)>): (starts: seq<B256>)
    ensures |starts| == |flags|
    ensures forall i :: 0 <= i < |flags| ==> starts[i] == Word(Ticks(flags[..i]))
  {
    seq(|flags|, i requires 0 <= i < |flags| => Word(Ticks(flags[..i])))
  }

  function CountedTrial(flags: seq<(bool, bool)>): Trial<B256> {
    Trial(Counting(), (_, _, _) => true, Word(0), CountedStarts(flags), CountedValues(flags),
          AggregationInput(EmptyBlock(Word(Ticks(flags))), [Ancestor()]))
  }

  lemma CountedGenuine(flags: seq<(bool, bool)>, i: nat)
    requires i < |flags|
    ensures Genuine(Counting(), CountedValue(flags, i), Word(Ticks(flags[..i])))
    ensures RunOf(Counting(), CountedValue(flags, i), Word(Ticks(flags[..i])))
      == Some(Run(Word(Ticks(flags[..i + 1])), [], []))
  {
    assert flags[..i + 1][..i] == flags[..i];
    var ticks := Ticks(flags[..i]);
    TickWord(ticks);
    TickWord(ticks + 1);
  }

  lemma {:induction false} NothingCounted(values: seq<PublicValue>)
    requires forall i :: 0 <= i < |values| ==>
      && values[i].input.currentBlock.transactions == [] && values[i].output.logsBloom == {}
      && values[i].output.receipts == [] && values[i].output.requests == []
    ensures TransactionsOf(values) == [] && ReceiptsOf(values) == [] && RequestsOf(values) == []
    ensures BloomsOf(values) == {}
  {
    if values != [] {
      NothingCounted(values[..|values| - 1]);
    }
  }

  lemma CountedSubblock(flags: seq<(bool, bool)>, i: nat)
    requires Pinned(flags) && i < |flags|
    ensures var t := CountedTrial(flags); SubblockAccepted(t.values, i, t.input.currentBlock, Word(0))
  {
    var values := CountedValues(flags);
    NothingCounted(values[..i]);
    if i > 0 {
      assert values[..i][i - 1] == CountedValue(flags, i - 1);
    } else {
      assert flags[..0] == [];
    }
  }

  lemma CountedAccepted(flags: seq<(bool, bool)>)
    requires Pinned(flags)
    ensures var t := CountedTrial(flags); Accepts(t.values, t.input, Word(0), t.rules)
  {
    var t := CountedTrial(flags);
    forall i | 0 <= i < |flags| ensures SubblockAccepted(t.values, i, t.input.currentBlock, Word(0)) {
      CountedSubblock(flags, i);
    }
    NothingCounted(t.values);
    assert flags[..|flags|] == flags;
    assert IsParent(Ancestor(), Child(t.input, 0));
  }

  lemma CountedSound(flags: seq<(bool, bool)>)
    requires Pinned(flags)
    ensures CountedTrial(flags).Sound()
  {
    var t := CountedTrial(flags);
    forall i | 0 <= i < |flags| ensures Genuine(t.machine, t.values[i], t.starts[i]) {
      CountedGenuine(flags, i);
    }
    forall i | 0 <= i < |flags| ensures StateBefore(t.machine, t.values, t.starts, t.parent, i) == t.starts[i] {
      if i > 0 {
        CountedGenuine(flags, i - 1);
      } else {
        assert flags[..0] == [];
      }
    }
    CountedAccepted(flags);
  }

  lemma CountedNotMeant(flags: seq<(bool, bool)>)
    requires Pinned(flags) && !FlagsFit(flags)
    ensures !CountedTrial(flags).Meant()
  {
    var t := CountedTrial(flags);
    TicksTooMany(flags);
    TickWord(0);
    TickWord(1);
    var m, c := t.machine, BlockContext(t.input);
    assert Transact(m, c, Word(1), 0, []) == Some(Run(Word(1), [], []));
    assert m.begin(c, Word(0)) == Word(1) && m.finish(c, Word(1)) == (Word(2), []);
    assert WholeRun(m, t.parent, t.input).value.state == Word(2);
    assert Word(2)[0] == 2 && Word(Ticks(flags))[0] == Ticks(flags);
  }

  lemma CountedFlags(flags: seq<(bool, bool)>)
    ensures FlagsOf(CountedTrial(flags).values) == flags
  {}

  lemma NotAlwaysMeant<S(!new)>(flags: seq<(bool, bool)>, t: Trial<S>)
    requires FlagsOf(t.values) == flags && t.Sound() && !t.Meant()
    ensures !AlwaysMeant<S>(flags)
  {}

  /** Flags that fit are enough, whatever the states are. */
  lemma FlagsSuffice<S(!new)>(flags: seq<(bool, bool)>)
    requires FlagsFit(flags)
    ensures AlwaysMeant<S>(flags)
  {
    forall t: Trial<S> | FlagsOf(t.values) == flags && t.Sound() ensures t.Meant() {
      AggregationPreservesMeaning(t.machine, t.rules, t.values, t.starts, t.parent, t.input);
    }
  }

  /**
   * Of the flags that the aggregator lets through, exactly those that fit guarantee that every sound
   * aggregation means what it should; for others it goes wrong already where states are their own roots.
   */
  lemma FlagsDecide(flags: seq<(bool, bool)>)
    requires Pinned(flags)
    ensures AlwaysMeant<B256>(flags) <==> FlagsFit(flags)
  {
    if FlagsFit(flags) {
      FlagsSuffice<B256>(flags);
    } else {
      CountedSound(flags);
      CountedNotMeant(flags);
      CountedFlags(flags);
      NotAlwaysMeant(flags, CountedTrial(flags));
    }
  }
}
