/** Is every canonical block in the block storage? Not after every run: a reorganisation that raises halfway can end
    on a block that is known but not stored. When exactly that happens, for one update and over whole runs. */
module HeadStorage {
  import opened Types
  import opened Ledger
  import opened ForkChoice
  import opened Canonical
  import opened ForkPoint
  import opened NodeRuns
  import opened Reorganisation
  import opened Admission

  // ----- Single updates -----

  /** An update that returns normally with a highest block leaves every canonical block stored: only an update
      that raised halfway can lose the head. */
  lemma NormalUpdateStoresChain(o: Oracle, f: Forks, x: Index)
    requires ForkInv(f) && IndexInv(o, x) && f.highest.Some? && UpdateCanonical(o, f, x).error.None?
    ensures ChainStored(f, CanonicalChain(UpdateCanonical(o, f, x).state))
  {
    hide FirstHighest, ClosedBut, Keyed, CanonicalChain, UpdateCanonical, Replay, HoldsAt;
    UpdateCanonicalReplays(o, f, x);
    HeadStoredIffChainStored(o, f, UpdateCanonical(o, f, x).state);
  }

  /** While there is a highest block and the canonical head is not stored, an update raises at once and changes
      nothing. */
  lemma StuckWithoutHead(o: Oracle, f: Forks, x: Index)
    requires Wf(f) && IndexInv(o, x) && f.highest.Some?
    requires x.cachedHash !in f.blocks
    ensures UpdateCanonical(o, f, x) == Outcome(Some(BlockNotFound), x)
  {
    LatestState(o, x);
  }

  // ----- When exactly one update loses the head -----

  /** Every block of the new branch that is going to apply is stored. This can be told before the update. */
  ghost predicate BranchStored(o: Oracle, f: Forks, x: Index)
    requires Wf(f)
  {
    f.highest.Some? && CurrentAndFork(f, x).Ok? ==>
      var line := Ancestors(f.highest.value);
      forall k :: |Ancestors(CurrentAndFork(f, x).value.0)| <= k < |line| && Replays(o, line, k) ==>
        Digest(line[k]) in f.blocks
  }

  /** The exact condition, for arbitrary blocks: after an update the canonical head, and so every canonical block, is
      stored if and only if it was before and every block of the new branch that is going to apply is. */
  lemma HeadStaysStoredIff(o: Oracle, f: Forks, x: Index)
    requires ForkInv(f) && IndexInv(o, x)
    ensures UpdateCanonical(o, f, x).state.cachedHash in f.blocks <==> x.cachedHash in f.blocks && BranchStored(o, f, x)
  {
    if f.highest.Some? && CurrentAndFork(f, x).Ok? {
      var (base, todo) := CurrentAndFork(f, x).value;
      assert x.cachedHash in f.blocks by {
        LatestState(o, x);
      }
      var n := UpdateReaches(o, f, x, base, todo);
      BranchStoredUpTo(o, f, x, base, todo, n);
    }
  }

  lemma BranchStoredUpTo(o: Oracle, f: Forks, x: Index, base: Block, todo: seq<Block>, n: nat)
    requires ForkInv(f) && f.highest.Some? && CurrentAndFork(f, x) == Ok((base, todo))
    requires var line, shared := Ancestors(f.highest.value), |Ancestors(base)|;
             && shared + n <= |line|
             && forall k :: shared <= k < |line| ==> (Replays(o, line, k) <==> k < shared + n)
    ensures BranchStored(o, f, x) <==>
            n == 0 || Digest(Ancestors(f.highest.value)[|Ancestors(base)| + n - 1]) in f.blocks
  {
    hide CurrentAndFork, Replay, FirstHighest, ClosedBut, Keyed, Ancestors;
    var line, shared := Ancestors(f.highest.value), |Ancestors(base)|;
    if n > 0 && Digest(line[shared + n - 1]) in f.blocks {
      var last := shared + n - 1;
      var reached := line[..last + 1];
      assert Replays(o, line, last);
      ReplayShape(o, reached);
      StoredDownwards(f, reached, last);
      assert reached[..last + 1] == reached;
      assert forall k :: 0 <= k <= last ==> reached[k] == line[k];
    }
  }

  // ----- Over whole runs -----

  /** No step but mining touches the canonical head, and none at all takes a block out of the storage. */
  lemma StepStoresMore(o: Oracle, n: Node, e: Event)
    requires NodeInv(o, n) && !e.StartMining?
    ensures Step(o, n, e).index.cachedHash == n.index.cachedHash
    ensures n.forks.blocks.Keys <= Step(o, n, e).forks.blocks.Keys
  {
    hide FirstHighest, ClosedBut, Keyed, HandleNewBlock, HandleAnswer, ConfirmBlockAndAncestors, CanonicalChain;
    match e {
      case NewBlock(b) => HandleNewBlockKeeps(o, n.forks, b);
      case Answer(q, reply) => HandleAnswerKeeps(o, n.forks, q, reply);
      case Mined(nonce) =>
        if n.candidate.Some? {
          ProduceKeeps(n.forks, n.candidate.value.(nonce := nonce));
        }
      case Restart => LatestState(o, n.index);
      case _ =>
    }
  }

  /** A mining step finds every block stored that it is going to apply. */
  ghost predicate FindsBranch(o: Oracle, n: Node, e: Event) {
    e.StartMining? && Wf(n.forks) ==> BranchStored(o, n.forks, n.index)
  }

  lemma MiningKeepsHeadIff(o: Oracle, n: Node, coinbase: bytes)
    requires NodeInv(o, n) && HeadStored(n)
    ensures HeadStored(StartMiningStep(o, n, coinbase)) <==> FindsBranch(o, n, StartMining(coinbase))
  {
    hide UpdateCanonical, BranchStored, Select, Holds, FirstHighest, ClosedBut, Keyed, CanonicalChain;
    HeadStaysStoredIff(o, n.forks, n.index);
  }

  /** While the head is stored, only a mining step over a branch with a missing block loses it; every other step, a
      restart included, keeps it, and the fork-manager invariant is kept by all. */
  lemma StepKeepsHeadIff(o: Oracle, n: Node, e: Event)
    requires NodeInv(o, n) && HeadStored(n)
    ensures NodeInv(o, Step(o, n, e))
    ensures HeadStored(Step(o, n, e)) <==> FindsBranch(o, n, e)
  {
    hide NodeInv, FindsBranch, StartMiningStep, HandleNewBlock, HandleAnswer, MinedStep, RestartStep;
    StepKeepsNodeInvIff(o, n, e);
    match e {
      case StartMining(coinbase) => MiningKeepsHeadIff(o, n, coinbase);
      case _ =>
        StepStoresMore(o, n, e);
        OnlyMiningNeedsBranch(o, n, e);
    }
  }

  lemma OnlyMiningNeedsBranch(o: Oracle, n: Node, e: Event)
    requires !e.StartMining?
    ensures FindsBranch(o, n, e)
  {
  }

  /** The exact condition over whole runs, with arbitrary blocks, exceptions and restarts: every canonical block is
      stored at every point of the run if and only if, at each mining step, every block of the new branch that is going
      to apply is stored. Then the fork-manager invariant holds too. */
  lemma HeadAlwaysStoredIff(o: Oracle, events: seq<Event>)
    ensures Always(o, events, HeadStored) <==> AtEachStep(o, events, (n, e) => FindsBranch(o, n, e))
    ensures Always(o, events, HeadStored) ==>
              NodeInv(o, Run(o, events)) && ChainStored(Run(o, events).forks, CanonicalChain(Run(o, events).index))
  {
    hide FindsBranch, Always, ForkInv, Holds, CanonicalChain, Step, ChainStored, HeadStored;
    FreshNodeInv(o);
    FreshHeadStored();
    forall n: Node, e: Event | Wf(n.forks) && NodeInv(o, n) && HeadStored(n)
      ensures NodeInv(o, Step(o, n, e)) && (HeadStored(Step(o, n, e)) <==> FindsBranch(o, n, e)) {
      StepKeepsHeadIff(o, n, e);
    }
    AlwaysIff(o, events, n => NodeInv(o, n), HeadStored, (n, e) => FindsBranch(o, n, e));
    if Always(o, events, HeadStored) {
      StoredRun(o, events);
    }
  }

  lemma FreshHeadStored()
    ensures HeadStored(FRESH)
  {
  }

  lemma StoredRun(o: Oracle, events: seq<Event>)
    requires NodeInv(o, Run(o, events)) && HeadStored(Run(o, events))
    ensures ChainStored(Run(o, events).forks, CanonicalChain(Run(o, events).index))
  {
    hide ForkInv, CanonicalChain, Run, ChainStored, Holds;
    HeadStoredIffChainStored(o, Run(o, events).forks, Run(o, events).index);
  }

  // ----- A condition on the arrivals alone -----

  predicate Honest(b: Block) {
    b.number == 0 ==> b == GENESIS
  }

  /** The arriving blocks that claim number 0 are genesis. They may be misnumbered otherwise. */
  predicate EventHonest(e: Event) {
    match e
    case NewBlock(b) => Honest(b)
    case Answer(_, Some(b)) => Honest(b)
    case _ => true
  }

  ghost predicate HonestNode(n: Node) {
    && All(n.forks, Honest)
    && (n.candidate.Some? ==> n.candidate.value.number > 0)
  }

  /** Then a stored block has its whole ancestry stored, whatever the other numbers are. */
  lemma {:induction false} HonestAncestryStored(f: Forks, b: Block)
    requires ForkInv(f) && All(f, Honest) && Digest(b) in f.blocks
    ensures ChainStored(f, Ancestors(b))
    decreases b
  {
    assert Digest(b) == Digest(f.blocks[Digest(b)]);
    assert Honest(b);
    if b.parentHash.Digest? {
      if b.number != 0 {
        HonestAncestryStored(f, b.parentHash.block);
      }
    }
  }

  lemma StartMiningNumbers(o: Oracle, n: Node, coinbase: bytes)
    requires Wf(n.forks) && IndexInv(o, n.index)
    ensures var n' := StartMiningStep(o, n, coinbase);
            n'.forks == n.forks && (n'.candidate.Some? ==> n'.candidate.value.number > 0)
  {
    hide UpdateCanonical, Select, CanonicalChain, Replay;
    UpdateCanonicalReplays(o, n.forks, n.index);
    LatestState(o, UpdateCanonical(o, n.forks, n.index).state);
  }

  lemma StepKeepsHonest(o: Oracle, n: Node, e: Event)
    requires Wf(n.forks) && IndexInv(o, n.index) && HonestNode(n) && EventHonest(e)
    ensures HonestNode(Step(o, n, e))
  {
    hide HandleNewBlock, HandleAnswer, StartMiningStep, ConfirmBlockAndAncestors, Holds, CanonicalChain;
    match e {
      case NewBlock(b) => NewBlockKeepsAll(o, n.forks, b, Honest);
      case Answer(q, reply) =>
        if q in n.forks.queries {
          AnswerKeepsAll(o, n.forks, q, reply, Honest);
        }
      case StartMining(coinbase) => StartMiningNumbers(o, n, coinbase);
      case Mined(nonce) =>
        if n.candidate.Some? {
          ProduceKeepsAll(n.forks, n.candidate.value.(nonce := nonce), Honest);
        }
      case _ =>
    }
  }

  lemma {:induction false} HonestAlways(o: Oracle, events: seq<Event>)
    requires forall e :: e in events ==> EventHonest(e)
    ensures HonestNode(Run(o, events))
    decreases |events|
  {
    if events != [] {
      var front := events[..|events| - 1];
      HonestAlways(o, front);
      CanonicalStoreAlwaysHoldsAChain(o, front);
      StepKeepsHonest(o, Run(o, front), events[|events| - 1]);
    }
  }

  lemma HonestBranchStored(o: Oracle, f: Forks, x: Index)
    requires ForkInv(f) && All(f, Honest)
    ensures BranchStored(o, f, x)
  {
    hide FirstHighest, ClosedBut, Keyed, All, CurrentAndFork, Replay, Ancestors;
    if f.highest.Some? {
      HonestAncestryStored(f, f.highest.value);
    }
  }

  /** Over every run, restarts included, in which no arriving block but genesis claims number 0, every canonical block
      is in the block storage and the fork-manager invariant holds. */
  lemma {:induction false} CanonicalBlocksAreStored(o: Oracle, events: seq<Event>)
    requires forall e :: e in events ==> EventHonest(e)
    ensures Always(o, events, HeadStored) && NodeInv(o, Run(o, events))
    ensures ChainStored(Run(o, events).forks, CanonicalChain(Run(o, events).index))
    decreases |events|
  {
    hide FindsBranch, Always, AtEachStep, ForkInv, Holds, CanonicalChain, Step, ChainStored, All, HonestNode;
    if events == [] {
      NothingYet(o, HeadStored, (n, e) => FindsBranch(o, n, e));
      FreshHeadStored();
    } else {
      var front := events[..|events| - 1];
      CanonicalBlocksAreStored(o, front);
      HeadAlwaysStoredIff(o, front);
      AtEachStepSplit(o, events, (n, e) => FindsBranch(o, n, e));
      HonestAlways(o, front);
      HonestFindsBranch(o, Run(o, front), events[|front|]);
    }
    HeadAlwaysStoredIff(o, events);
  }

  lemma HonestFindsBranch(o: Oracle, n: Node, e: Event)
    requires NodeInv(o, n) && HonestNode(n)
    ensures FindsBranch(o, n, e)
  {
    hide BranchStored, Holds, CanonicalChain;
    HonestBranchStored(o, n.forks, n.index);
  }

  // ----- A restart on a lost head -----

  /** The block a restarted node builds: its mempool is empty and it has no highest block, so it mines on the stored
      head. */
  function FirstAfterRestart(x: Index, coinbase: bytes, nonce: nat): Block {
    Block(x.cachedNum + 1, nonce, x.cachedHash, coinbase, [])
  }

  lemma RestartedCandidate(o: Oracle, n: Node, coinbase: bytes)
    requires Wf(n.forks) && IndexInv(o, n.index)
    ensures var started := StartMiningStep(o, RestartStep(n), coinbase);
            && started.forks == FRESH_FORKS.(blocks := n.forks.blocks) && started.index == n.index
            && started.candidate == Some(FirstAfterRestart(n.index, coinbase, 0))
  {
    LatestState(o, n.index);
  }

  lemma ParentIsFirstGap(f: Forks, b: Block)
    requires ForkInv(f) && f.known == map[] && b.number > 0
    ensures FindGap(f, b) == Ok(None) <==> b.parentHash in f.blocks
    ensures b.parentHash !in f.blocks ==> ConfirmBlockAndAncestors(f, b).state == ConfirmBlock(f, b)
  {
    assert b.parentHash != Digest(b);
    if Digest(b) in f.blocks {
      assert f.blocks[Digest(b)] == b;
    } else if b.parentHash in f.blocks {
      assert FindGap(f, GetParent(f, b).value) == Ok(None);
    }
  }

  /** The fork-manager invariant survives a block mined right after a restart if and only if the canonical head is
      stored: here nothing comes between the restart, the start of mining and the mined block. Without the head the
      block is stored all the same, and `produce_block` raises. */
  lemma RestartedMinerKeepsForkInvIff(o: Oracle, n: Node, coinbase: bytes, nonce: nat)
    requires ForkInv(n.forks) && IndexInv(o, n.index)
    requires o.meets(Digest(FirstAfterRestart(n.index, coinbase, nonce)))
    ensures var started := StartMiningStep(o, RestartStep(n), coinbase);
            var b := FirstAfterRestart(n.index, coinbase, nonce);
            var mined := MinedStep(o, started, nonce);
            && (ForkInv(mined.forks) <==> HeadStored(n))
            && mined.forks == ConfirmBlockAndAncestors(started.forks, b).state
            && ConfirmBlockAndAncestors(started.forks, b).error
               == (if HeadStored(n) then None else Some(ParentNotFound))
            && (!HeadStored(n) ==> mined.forks == ConfirmBlock(started.forks, b))
  {
    hide StartMiningStep, RestartStep, FirstHighest, ClosedBut, Holds, HoldsAt, CanonicalChain, Replay, LatestHash,
      LoadState, LatestNum, ConfirmBlockAndAncestors, FindGap;
    RestartedCandidate(o, n, coinbase);
    LatestState(o, n.index);
    RestartedForkInv(n.forks);
    var f, b := FRESH_FORKS.(blocks := n.forks.blocks), FirstAfterRestart(n.index, coinbase, nonce);
    ParentIsFirstGap(f, b);
    ConfirmKeepsIff(f, b);
  }
}
