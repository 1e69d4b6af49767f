/** How a canonical head gets lost, what follows, and how it comes back: eight blocks that meet a node's difficulty, in
    runs the node accepts. Nonces, miners and the difficulty test are arbitrary. */
module LostHead {
  import opened Types
  import opened Ledger
  import opened ForkChoice
  import opened Canonical
  import opened ForkPoint
  import opened NodeRuns
  import opened HeadStorage

  /** A block without transactions that the node will not turn away. */
  predicate EmptyChild(o: Oracle, b: Block, parent: Block, number: int) {
    b.number == number && b.parentHash == Digest(parent) && b.transactions == [] && o.meets(Digest(b))
  }

  /** A chain `c1` to `c5` on genesis; `orphan`, a sibling of `c2` that arrives before their parent and so stays
      known but unconfirmed; its child `falseGenesis`, which claims number 0; and a child of that with a number above
      the tip's. */
  datatype Scenario = Scenario(o: Oracle, c1: Block, c2: Block, c3: Block, c4: Block, c5: Block,
                               orphan: Block, falseGenesis: Block, lure: Block) {

    predicate Valid() {
      && EmptyChild(o, c1, GENESIS, 1) && EmptyChild(o, c2, c1, 2) && EmptyChild(o, c3, c2, 3)
      && EmptyChild(o, c4, c3, 4) && EmptyChild(o, c5, c4, 5)
      && EmptyChild(o, orphan, c1, 2) && orphan != c2
      && EmptyChild(o, falseGenesis, orphan, 0) && EmptyChild(o, lure, falseGenesis, 4)
    }

    function Before(): seq<Event> {
      [NewBlock(orphan), NewBlock(c1), NewBlock(c2), NewBlock(c3)]
    }

    function Lured(): seq<Event> {
      Before() + [StartMining([])] + [NewBlock(falseGenesis)] + [NewBlock(lure)]
    }

    /** The run that loses the head: its second update raises halfway. */
    function GapRun(): seq<Event> {
      Lured() + [StartMining([])]
    }

    /** The run that finds it again: the orphan is gossiped once more, and the chain grows past the lure. */
    function RecoveryRun(): seq<Event> {
      GapRun() + [NewBlock(orphan)] + [NewBlock(c4)] + [NewBlock(c5)]
    }
  }

  function EmptyBlock(number: int, parent: Block, coinbase: bytes): Block {
    Block(number, 0, Digest(parent), coinbase, [])
  }

  lemma MineOne(o: Oracle, number: int, parent: Block, coinbase: bytes) returns (b: Block)
    requires Minable(o)
    ensures EmptyChild(o, b, parent, number) && b.coinbase == coinbase
  {
    var template := EmptyBlock(number, parent, coinbase);
    var nonce :| o.meets(Digest(template.(nonce := nonce)));
    b := template.(nonce := nonce);
  }

  /** Such blocks exist for every difficulty that can be met. */
  lemma ScenarioExists(o: Oracle) returns (s: Scenario)
    requires Minable(o)
    ensures s.o == o && s.Valid()
  {
    hide Minable;
    var c1 := MineOne(o, 1, GENESIS, []);
    var c2 := MineOne(o, 2, c1, []);
    var c3 := MineOne(o, 3, c2, []);
    var c4 := MineOne(o, 4, c3, []);
    var c5 := MineOne(o, 5, c4, []);
    var orphan := MineOne(o, 2, c1, [1]);
    var falseGenesis := MineOne(o, 0, orphan, []);
    var lure := MineOne(o, 4, falseGenesis, []);
    s := Scenario(o, c1, c2, c3, c4, c5, orphan, falseGenesis, lure);
  }

  // ----- Arrivals -----

  /** A block that meets the difficulty, whose parent is stored, is stored and offered as the tip. */
  lemma ArriveOnStored(o: Oracle, f: Forks, b: Block)
    requires ForkInv(f) && o.meets(Digest(b))
    requires Digest(b) !in f.blocks && (b.number == 0 || b.parentHash in f.blocks)
    ensures var g := HandleNewBlock(o, f, b).state;
            && g.blocks == f.blocks[Digest(b) := b] && g.known == f.known[Digest(b) := b]
            && g.highest == (if f.highest.None? || b.number > f.highest.value.number then Some(b) else f.highest)
  {
    var f' := AddBlock(f, b);
    if b.number != 0 {
      var p := GetParent(f', b).value;
      assert FindGap(f', p) == Ok(None);
      assert ConfirmWalk(ConfirmBlock(f', b), p) == Outcome(None, ConfirmBlock(f', b));
    }
    assert FindGap(f', b) == Ok(None);
    assert ConfirmWalk(f', b) == Outcome(None, ConfirmBlock(f', b));
  }

  /** One such arrival after a run. */
  lemma ArrivalAfter(o: Oracle, events: seq<Event>, b: Block)
    requires Restart !in events && o.meets(Digest(b))
    requires var f := Run(o, events).forks;
             Digest(b) !in f.blocks && (b.number == 0 || b.parentHash in f.blocks)
    ensures var n, m := Run(o, events), Run(o, events + [NewBlock(b)]);
            && m.index == n.index
            && m.forks.blocks == n.forks.blocks[Digest(b) := b]
            && m.forks.known == n.forks.known[Digest(b) := b]
            && m.forks.highest == (if n.forks.highest.None? || b.number > n.forks.highest.value.number
                                   then Some(b) else n.forks.highest)
  {
    RunMore(o, events, NewBlock(b));
    NodeInvWithoutRestarts(o, events);
    hide Run, HandleNewBlock, Holds, CanonicalChain;
    ArriveOnStored(o, Run(o, events).forks, b);
  }

  // ----- The main chain -----

  lemma EmptyBlockApplies(o: Oracle, chain: seq<Block>, b: Block)
    requires Replay(o, chain).Ok? && EmptyChild(o, b, chain[|chain| - 1], |chain|)
    ensures Replay(o, chain + [b]).Ok?
    ensures ApplyBlock(o, b, Replay(o, chain).value).Ok?
    ensures Ancestors(b) == chain + [b]
  {
    ReplayShape(o, chain);
    assert (chain + [b])[..|chain|] == chain;
  }

  lemma MainChainReplays(s: Scenario)
    requires s.Valid()
    ensures Ancestors(s.c1) == [GENESIS, s.c1] && Ancestors(s.c3) == [GENESIS, s.c1, s.c2, s.c3]
    ensures Ancestors(s.orphan) == [GENESIS, s.c1, s.orphan]
    ensures Ancestors(s.c5) == [GENESIS, s.c1, s.c2, s.c3, s.c4, s.c5]
    ensures Replay(s.o, [GENESIS, s.c1]).Ok? && Replay(s.o, [GENESIS, s.c1, s.c2, s.c3]).Ok?
    ensures Replay(s.o, [GENESIS, s.c1, s.orphan]).Ok?
    ensures Replay(s.o, [GENESIS, s.c1, s.c2, s.c3, s.c4, s.c5]).Ok?
  {
    hide Ancestors;
    EmptyBlockApplies(s.o, [GENESIS], s.c1);
    assert [GENESIS] + [s.c1] == [GENESIS, s.c1];
    hide Replay;
    EmptyBlockApplies(s.o, [GENESIS, s.c1], s.c2);
    assert [GENESIS, s.c1] + [s.c2] == [GENESIS, s.c1, s.c2];
    EmptyBlockApplies(s.o, [GENESIS, s.c1], s.orphan);
    assert [GENESIS, s.c1] + [s.orphan] == [GENESIS, s.c1, s.orphan];
    EmptyBlockApplies(s.o, [GENESIS, s.c1, s.c2], s.c3);
    assert [GENESIS, s.c1, s.c2] + [s.c3] == [GENESIS, s.c1, s.c2, s.c3];
    EmptyBlockApplies(s.o, [GENESIS, s.c1, s.c2, s.c3], s.c4);
    assert [GENESIS, s.c1, s.c2, s.c3] + [s.c4] == [GENESIS, s.c1, s.c2, s.c3, s.c4];
    EmptyBlockApplies(s.o, [GENESIS, s.c1, s.c2, s.c3, s.c4], s.c5);
    assert [GENESIS, s.c1, s.c2, s.c3, s.c4] + [s.c5] == [GENESIS, s.c1, s.c2, s.c3, s.c4, s.c5];
  }

  lemma OrphanWaits(s: Scenario)
    requires s.Valid()
    ensures var n := Run(s.o, [NewBlock(s.orphan)]);
            && n.index == FRESH_INDEX && n.forks.highest == None
            && n.forks.blocks == FRESH_FORKS.blocks && n.forks.known == map[Digest(s.orphan) := s.orphan]
  {
    RunMore(s.o, [], NewBlock(s.orphan));
    assert [] + [NewBlock(s.orphan)] == [NewBlock(s.orphan)];
    var f := AddBlock(FRESH_FORKS, s.orphan);
    assert FindGap(f, s.orphan) == Ok(Some(s.orphan));
  }

  /** After the four arrivals the orphan is known, the main chain is stored, and its end is the tip. */
  lemma FourArrivals(s: Scenario)
    requires s.Valid()
    ensures var n := Run(s.o, s.Before());
            && n.index == FRESH_INDEX
            && n.forks.highest == Some(s.c3)
            && Digest(s.orphan) in n.forks.known
            && n.forks.blocks.Keys == {Digest(GENESIS), Digest(s.c1), Digest(s.c2), Digest(s.c3)}
  {
    hide Run;
    var e1: seq<Event> := [NewBlock(s.orphan)];
    var e2 := e1 + [NewBlock(s.c1)];
    var e3 := e2 + [NewBlock(s.c2)];
    assert e3 + [NewBlock(s.c3)] == s.Before();
    OrphanWaits(s);
    ArrivalAfter(s.o, e1, s.c1);
    ArrivalAfter(s.o, e2, s.c2);
    ArrivalAfter(s.o, e3, s.c3);
  }

  lemma MiningUpdates(o: Oracle, events: seq<Event>)
    ensures var n, m := Run(o, events), Run(o, events + [StartMining([])]);
            && m.forks == n.forks
            && m.index == UpdateCanonical(o, n.forks, n.index).state
  {
    RunMore(o, events, StartMining([]));
    hide Run, UpdateCanonical, Select;
  }

  /** A mining step after a well-numbered run canonicalises a tip whose ancestry replays. */
  lemma MiningCanonicalises(o: Oracle, events: seq<Event>, tip: Block)
    requires forall e :: e in events ==> EventWellNumbered(e)
    requires Run(o, events).forks.highest == Some(tip) && Replay(o, Ancestors(tip)).Ok?
    ensures CanonicalChain(Run(o, events + [StartMining([])]).index) == Ancestors(tip)
  {
    WellNumberedRuns(o, events);
    MiningUpdates(o, events);
    hide Run, UpdateCanonical, Replay, Ancestors, CanonicalChain, FirstHighest, ClosedBut;
    var n := Run(o, events);
    UpdateSucceedsIff(o, n.forks, n.index);
    UpdatedChain(o, n.forks, n.index);
  }

  /** The first mining step canonicalises the main chain. */
  lemma MainChainIsCanonical(s: Scenario)
    requires s.Valid()
    ensures var n := Run(s.o, s.Before() + [StartMining([])]);
            && n.forks == Run(s.o, s.Before()).forks
            && CanonicalChain(n.index) == [GENESIS, s.c1, s.c2, s.c3]
  {
    hide Run, Replay, CanonicalChain;
    forall e | e in s.Before() ensures EventWellNumbered(e) {
      assert WellNumbered(GENESIS) && WellNumbered(s.c1) && WellNumbered(s.c2);
    }
    FourArrivals(s);
    MainChainReplays(s);
    MiningCanonicalises(s.o, s.Before(), s.c3);
    MiningUpdates(s.o, s.Before());
  }

  // ----- Losing the head -----

  lemma TwoMoreArrivals(s: Scenario)
    requires s.Valid()
    ensures var n := Run(s.o, s.Lured());
            && CanonicalChain(n.index) == [GENESIS, s.c1, s.c2, s.c3]
            && n.forks.highest == Some(s.lure)
            && Digest(s.orphan) in n.forks.known
            && n.forks.blocks.Keys == {Digest(GENESIS), Digest(s.c1), Digest(s.c2), Digest(s.c3),
                                       Digest(s.falseGenesis), Digest(s.lure)}
  {
    hide Run, CanonicalChain;
    FourArrivals(s);
    MainChainIsCanonical(s);
    ArrivalAfter(s.o, s.Before() + [StartMining([])], s.falseGenesis);
    ArrivalAfter(s.o, s.Before() + [StartMining([])] + [NewBlock(s.falseGenesis)], s.lure);
  }

  /** The walks from the lure meet the main chain at `c1`, after stepping through the unstored orphan. */
  lemma WalkThroughOrphan(s: Scenario, f: Forks)
    requires s.Valid() && Wf(f) && Digest(s.orphan) in f.known
    requires {Digest(s.c1), Digest(s.c2), Digest(s.c3), Digest(s.falseGenesis), Digest(s.lure)} <= f.blocks.Keys
    ensures FindFork(f, s.lure, s.c3) == Ok((s.c1, [s.lure, s.falseGenesis, s.orphan]))
  {
    assert GetParent(f, s.lure) == Ok(s.falseGenesis) && GetParent(f, s.falseGenesis) == Ok(s.orphan);
    assert GetParent(f, s.orphan) == Ok(s.c1);
    assert Descend(f, s.falseGenesis, 3, [s.lure]) == Ok((s.falseGenesis, [s.lure]));
    assert [] + [s.lure] == [s.lure];
    assert Descend(f, s.lure, 3, []) == Ok((s.falseGenesis, [s.lure]));
    var two, three := [s.lure, s.falseGenesis], [s.lure, s.falseGenesis, s.orphan];
    assert Meet(f, s.c1, s.c1, three) == Ok((s.c1, three));
    assert two + [s.orphan] == three && [s.lure] + [s.falseGenesis] == two;
    assert BlockByHash(f.blocks, s.c2.parentHash) == Ok(s.c1) && BlockByHash(f.blocks, s.c3.parentHash) == Ok(s.c2);
    assert Meet(f, s.orphan, s.c2, two) == Ok((s.c1, three));
    assert Meet(f, s.falseGenesis, s.c3, [s.lure]) == Ok((s.c1, three));
  }

  /** Re-applying that branch records the orphan and then raises. */
  lemma OnlyOrphanApplies(s: Scenario, x: Index)
    requires s.Valid() && Replay(s.o, [GENESIS, s.c1]).Ok?
    ensures var r := ApplyTodo(s.o, [s.lure, s.falseGenesis, s.orphan], Replay(s.o, [GENESIS, s.c1]).value, x);
            && r.error == Some(WrongNumber)
            && r.state.cachedHash == Digest(s.orphan)
  {
    EmptyBlockApplies(s.o, [GENESIS, s.c1], s.orphan);
    var start := Replay(s.o, [GENESIS, s.c1]).value;
    hide Replay;
    var next := ApplyBlock(s.o, s.orphan, start).value;
    var x' := Record(x, s.orphan, next);
    assert [s.lure, s.falseGenesis, s.orphan][..2] == [s.lure, s.falseGenesis];
    assert ApplyBlock(s.o, s.falseGenesis, next) == Err(WrongNumber);
    assert ApplyTodo(s.o, [s.lure, s.falseGenesis], next, x') == Outcome(Some(WrongNumber), x');
  }

  lemma LureUpdate(s: Scenario, f: Forks, x: Index)
    requires s.Valid() && Wf(f) && IndexInv(s.o, x) && CanonicalChain(x) == [GENESIS, s.c1, s.c2, s.c3]
    requires f.highest == Some(s.lure) && Digest(s.orphan) in f.known
    requires {Digest(s.c1), Digest(s.c2), Digest(s.c3), Digest(s.falseGenesis), Digest(s.lure)} <= f.blocks.Keys
    ensures UpdateCanonical(s.o, f, x).error == Some(WrongNumber)
    ensures UpdateCanonical(s.o, f, x).state.cachedHash == Digest(s.orphan)
  {
    MainChainReplays(s);
    hide Replay, Ancestors, Descend, Meet, ApplyTodo, CanonicalChain, UpdateCanonical;
    WalkThroughOrphan(s, f);
    LatestState(s.o, x);
    UpdateIsApply(s.o, f, x, s.c1, [s.lure, s.falseGenesis, s.orphan]);
    OnlyOrphanApplies(s, x);
  }

  /** What the run that loses the head leaves: the orphan is canonical and in no storage, and the lure is the tip. */
  lemma GapState(s: Scenario)
    requires s.Valid()
    ensures var n := Run(s.o, s.GapRun());
            && NodeInv(s.o, n)
            && CanonicalChain(n.index) == [GENESIS, s.c1, s.orphan]
            && n.index.cachedHash == Digest(s.orphan)
            && n.forks.highest == Some(s.lure)
            && n.forks.blocks.Keys == {Digest(GENESIS), Digest(s.c1), Digest(s.c2), Digest(s.c3),
                                       Digest(s.falseGenesis), Digest(s.lure)}
  {
    hide Run, Holds, CanonicalChain, UpdateCanonical, ForkInv;
    CanonicalStoreAlwaysHoldsAChain(s.o, s.Lured());
    NodeInvWithoutRestarts(s.o, s.GapRun());
    MiningUpdates(s.o, s.Lured());
    TwoMoreArrivals(s);
    LureUpdate(s, Run(s.o, s.Lured()).forks, Run(s.o, s.Lured()).index);
    ChainOfHead(s.o, Run(s.o, s.GapRun()).index, s.orphan);
    MainChainReplays(s);
  }

  lemma ChainOfHead(o: Oracle, x: Index, head: Block)
    requires IndexInv(o, x) && x.cachedHash == Digest(head)
    ensures CanonicalChain(x) == Ancestors(head)
  {
    LatestState(o, x);
  }

  /** For every difficulty that can be met there is a run without restarts after which the canonical head is in no
      storage. While that lasts, with a highest block, every update raises at once. */
  lemma CanonicalHeadCanBeMissing(s: Scenario)
    requires s.Valid()
    ensures var n := Run(s.o, s.GapRun());
            && Restart !in s.GapRun() && !HeadStored(n)
            && UpdateCanonical(s.o, n.forks, n.index) == Outcome(Some(BlockNotFound), n.index)
  {
    hide Run, Holds, CanonicalChain, UpdateCanonical, ForkInv;
    GapState(s);
    var n := Run(s.o, s.GapRun());
    StuckWithoutHead(s.o, n.forks, n.index);
  }

  // ----- Finding it again -----

  /** Gossiped again, the orphan is confirmed under its stored parent, and the updates go on: the next normal one is
      the main chain. */
  lemma LostHeadComesBack(s: Scenario)
    requires s.Valid()
    ensures var n := Run(s.o, s.RecoveryRun());
            && HeadStored(n) && n.forks.highest == Some(s.c5)
            && var updated := UpdateCanonical(s.o, n.forks, n.index);
            && updated.error == None
            && CanonicalChain(updated.state) == [GENESIS, s.c1, s.c2, s.c3, s.c4, s.c5]
  {
    hide Run, Holds, CanonicalChain, UpdateCanonical, ForkInv, Replay, Ancestors;
    GapState(s);
    ArrivalAfter(s.o, s.GapRun(), s.orphan);
    ArrivalAfter(s.o, s.GapRun() + [NewBlock(s.orphan)], s.c4);
    ArrivalAfter(s.o, s.GapRun() + [NewBlock(s.orphan)] + [NewBlock(s.c4)], s.c5);
    var n := Run(s.o, s.RecoveryRun());
    CanonicalStoreAlwaysHoldsAChain(s.o, s.RecoveryRun());
    MainChainReplays(s);
    NodeInvWithoutRestarts(s.o, s.RecoveryRun());
    LatestState(s.o, n.index);
    UpdateSucceedsIff(s.o, n.forks, n.index);
    UpdatedChain(s.o, n.forks, n.index);
  }

  // ----- A restart before that -----

  /** Restarted on the lost head, a node mines on it: the new block is stored without its parent, `produce_block`
      raises, and the fork-manager invariant is broken. */
  lemma RestartOnLostHead(s: Scenario, coinbase: bytes, nonce: nat)
    requires s.Valid() && s.o.meets(Digest(Block(3, nonce, Digest(s.orphan), coinbase, [])))
    ensures var n := Run(s.o, s.GapRun() + [Restart] + [StartMining(coinbase)] + [Mined(nonce)]);
            && !ForkInv(n.forks)
            && Digest(Block(3, nonce, Digest(s.orphan), coinbase, [])) in n.forks.blocks
            && !IsKnown(n.forks, Digest(s.orphan))
  {
    hide Run, Holds, CanonicalChain, ForkInv, StartMiningStep, ConfirmBlockAndAncestors;
    GapState(s);
    var n := Run(s.o, s.GapRun());
    LatestState(s.o, n.index);
    RunMore(s.o, s.GapRun(), Restart);
    RunMore(s.o, s.GapRun() + [Restart], StartMining(coinbase));
    RunMore(s.o, s.GapRun() + [Restart] + [StartMining(coinbase)], Mined(nonce));
    RestartedCandidate(s.o, n, coinbase);
    RestartedMinerKeepsForkInvIff(s.o, n, coinbase, nonce);
  }

  lemma OrphanThenMined(s: Scenario, f: Forks, b: Block)
    requires s.Valid() && ForkInv(f) && f.highest == None
    requires Digest(s.orphan) !in f.blocks && Digest(s.c1) in f.blocks
    requires b.parentHash == Digest(s.orphan) && b.number == 3
    ensures var g := ConfirmBlockAndAncestors(HandleNewBlock(s.o, f, s.orphan).state, b).state;
            ForkInv(g) && g.highest == Some(b)
  {
    HandleNewBlockKeeps(s.o, f, s.orphan);
    ArriveOnStored(s.o, f, s.orphan);
    hide FirstHighest, ClosedBut, ConfirmBlockAndAncestors, HandleNewBlock, Keyed;
    var g := HandleNewBlock(s.o, f, s.orphan).state;
    ProduceKeeps(g, b);
    MinedIsHighest(g, b);
  }

  /** The head need not be stored at the restart: when the orphan is gossiped again before the block is mined, the block
      finds its parent, becomes the highest one, and the invariant is kept. */
  lemma OrphanInTime(s: Scenario, coinbase: bytes, nonce: nat)
    requires s.Valid() && s.o.meets(Digest(Block(3, nonce, Digest(s.orphan), coinbase, [])))
    ensures var f := Run(s.o, s.GapRun() + [Restart] + [StartMining(coinbase)] + [NewBlock(s.orphan)]
                              + [Mined(nonce)]).forks;
            && !HeadStored(Run(s.o, s.GapRun()))
            && ForkInv(f) && f.highest == Some(Block(3, nonce, Digest(s.orphan), coinbase, []))
  {
    hide Run, Holds, CanonicalChain, FirstHighest, ClosedBut, Keyed, StartMiningStep, ConfirmBlockAndAncestors,
      HandleNewBlock;
    GapState(s);
    var n := Run(s.o, s.GapRun());
    LatestState(s.o, n.index);
    RunMore(s.o, s.GapRun(), Restart);
    RunMore(s.o, s.GapRun() + [Restart], StartMining(coinbase));
    RunMore(s.o, s.GapRun() + [Restart] + [StartMining(coinbase)], NewBlock(s.orphan));
    RunMore(s.o, s.GapRun() + [Restart] + [StartMining(coinbase)] + [NewBlock(s.orphan)], Mined(nonce));
    RestartedCandidate(s.o, n, coinbase);
    RestartedForkInv(n.forks);
    OrphanThenMined(s, FRESH_FORKS.(blocks := n.forks.blocks), Block(3, nonce, Digest(s.orphan), coinbase, []));
  }
}
