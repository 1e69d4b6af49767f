/** A node as a state machine: arriving blocks and answers, transactions, mining and restarts in any order.
    What holds after every run, and what each further assumption on the run adds. */
module NodeRuns {
  import opened Types
  import opened Ledger
  import opened LedgerTheorems
  import opened Pool
  import opened ForkChoice
  import opened ForkTheorems
  import opened Canonical
  import opened ForkPoint

  /** `candidate` is the block being mined, between the two phases of the producer. */
  datatype Node = Node(forks: Forks, index: Index, pool: seq<Transaction>, candidate: Option<Block>)

  /** One atomic step. `StartMining` is `_produce_block` up to the nonce loop, `Mined` the end of that loop with
      `produce_block`, `AbortMining` its early return. A malformed message changes nothing and needs no event. */
  datatype Event =
    | NewBlock(block: Block)
    | Answer(query: Query, reply: Option<Block>)
    | GossipedTransaction(tx: Transaction)
    | OwnTransaction(tx: Transaction)
    | TransactionTimedOut(tx: Transaction)
    | StartMining(coinbase: bytes)
    | Mined(nonce: nat)
    | AbortMining
    | Restart

  const FRESH_FORKS: Forks := Forks(map[], {}, map[Digest(GENESIS) := GENESIS], None, multiset{}, [])

  const FRESH_INDEX: Index :=
    Index(map[0 := Digest(GENESIS)], Some(0), map[0 := GENESIS_STATE], 0, Digest(GENESIS))

  const FRESH: Node := Node(FRESH_FORKS, FRESH_INDEX, [], None)

  function StartMiningStep(o: Oracle, n: Node, coinbase: bytes): Node
    requires Wf(n.forks)
  {
    var updated := UpdateCanonical(o, n.forks, n.index);
    var n' := n.(index := updated.state, candidate := None);
    if updated.error.Some? then n' else
    match LoadState(n'.index, LatestNum(n'.index))
    case Err(_) => n'
    case Ok(s) =>
      var picked := Select(o, n.pool, s, MAX_TRANSACTIONS_PER_BLOCK);
      n'.(pool := Evict(n.pool, picked.evicted),
          candidate := if picked.raised then None else Some(Template(s, coinbase, picked.chosen)))
  }

  function MinedStep(o: Oracle, n: Node, nonce: nat): Node
    requires Wf(n.forks)
  {
    if n.candidate.None? || !o.meets(Digest(n.candidate.value.(nonce := nonce))) then n else
    n.(forks := ConfirmBlockAndAncestors(n.forks, n.candidate.value.(nonce := nonce)).state, candidate := None)
  }

  /** A restart keeps the three storages and loses everything in memory. */
  function RestartStep(n: Node): Node {
    Node(FRESH_FORKS.(blocks := n.forks.blocks),
         n.index.(cachedNum := LatestNum(n.index),
                  cachedHash := match LatestHash(n.index) case Ok(h) => h case Err(_) => n.index.cachedHash),
         [], None)
  }

  function Step(o: Oracle, n: Node, e: Event): (r: Node)
    requires Wf(n.forks)
    ensures Wf(r.forks)
  {
    match e
    case NewBlock(b) => n.(forks := HandleNewBlock(o, n.forks, b).state)
    case Answer(q, reply) =>
      if q in n.forks.queries then n.(forks := HandleAnswer(o, n.forks, q, reply)) else n
    case GossipedTransaction(tx) =>
      if o.signature(tx).Accepts? then n.(pool := AddTransaction(n.pool, tx)) else n
    case OwnTransaction(tx) => if tx.sig == [] then n else n.(pool := AddTransaction(n.pool, tx))
    case TransactionTimedOut(tx) => n.(pool := Evict(n.pool, [tx]))
    case StartMining(coinbase) => StartMiningStep(o, n, coinbase)
    case Mined(nonce) => MinedStep(o, n, nonce)
    case AbortMining => n.(candidate := None)
    case Restart => RestartStep(n)
  }

  function Run(o: Oracle, events: seq<Event>): (r: Node)
    ensures Wf(r.forks)
    decreases |events|
  {
    if events == [] then FRESH else Step(o, Run(o, events[..|events| - 1]), events[|events| - 1])
  }

  // ----- Every point of a run -----

  ghost predicate Always(o: Oracle, events: seq<Event>, p: Node -> bool) {
    forall i :: 0 <= i <= |events| ==> p(Run(o, events[..i]))
  }

  ghost predicate AtEachStep(o: Oracle, events: seq<Event>, q: (Node, Event) -> bool) {
    forall i :: 0 <= i < |events| ==> q(Run(o, events[..i]), events[i])
  }

  lemma AlwaysSplit(o: Oracle, events: seq<Event>, p: Node -> bool)
    requires events != []
    ensures Always(o, events, p) <==> Always(o, events[..|events| - 1], p) && p(Run(o, events))
  {
    hide Run;
    var front := events[..|events| - 1];
    assert forall i :: 0 <= i <= |front| ==> front[..i] == events[..i];
    assert events[..|events|] == events;
    if Always(o, front, p) && p(Run(o, events)) {
      forall i | 0 <= i <= |events| ensures p(Run(o, events[..i])) {
        if i < |events| {
          assert p(Run(o, front[..i]));
        }
      }
    }
    if Always(o, events, p) {
      forall i | 0 <= i <= |front| ensures p(Run(o, front[..i])) {
        assert p(Run(o, events[..i]));
      }
      assert p(Run(o, events[..|events|]));
    }
  }

  lemma AtEachStepSplit(o: Oracle, events: seq<Event>, q: (Node, Event) -> bool)
    requires events != []
    ensures var front := events[..|events| - 1];
            AtEachStep(o, events, q) <==> AtEachStep(o, front, q) && q(Run(o, front), events[|front|])
  {
    hide Run;
    var front := events[..|events| - 1];
    assert forall i :: 0 <= i <= |front| ==> front[..i] == events[..i];
    assert forall i :: 0 <= i < |front| ==> front[i] == events[i];
    if AtEachStep(o, front, q) && q(Run(o, front), events[|front|]) {
      forall i | 0 <= i < |events| ensures q(Run(o, events[..i]), events[i]) {
        if i < |front| {
          assert q(Run(o, front[..i]), front[i]);
        }
      }
    }
    if AtEachStep(o, events, q) {
      forall i | 0 <= i < |front| ensures q(Run(o, front[..i]), front[i]) {
        assert q(Run(o, events[..i]), events[i]);
      }
      assert q(Run(o, events[..|front|]), events[|front|]);
    }
  }

  /** If, along with an invariant, each step keeps a property exactly under a condition on it, then the property
      holds at every point of a run exactly when each of its steps meets the condition. */
  lemma {:induction false} AlwaysIff(o: Oracle, events: seq<Event>, inv: Node -> bool, p: Node -> bool,
                                     q: (Node, Event) -> bool)
    requires inv(FRESH) && p(FRESH)
    requires forall n: Node, e: Event :: Wf(n.forks) && inv(n) && p(n) ==>
               inv(Step(o, n, e)) && (p(Step(o, n, e)) <==> q(n, e))
    ensures Always(o, events, p) <==> AtEachStep(o, events, q)
    ensures Always(o, events, p) ==> inv(Run(o, events)) && p(Run(o, events))
    decreases |events|
  {
    hide Always, AtEachStep, Step;
    if events == [] {
      NothingYet(o, p, q);
    } else {
      var front := events[..|events| - 1];
      AlwaysIff(o, front, inv, p, q);
      AlwaysSplit(o, events, p);
      AtEachStepSplit(o, events, q);
    }
  }

  lemma NothingYet(o: Oracle, p: Node -> bool, q: (Node, Event) -> bool)
    requires p(FRESH)
    ensures Always(o, [], p) && AtEachStep(o, [], q) && Run(o, []) == FRESH
  {
    var none: seq<Event> := [];
    assert none[..0] == none;
  }

  // ----- Every run: the canonical store -----

  lemma RunMore(o: Oracle, events: seq<Event>, e: Event)
    ensures Run(o, events + [e]) == Step(o, Run(o, events), e)
  {
    assert (events + [e])[..|events|] == events;
  }

  lemma FreshIndexHolds(o: Oracle)
    ensures Holds(o, FRESH_INDEX, [GENESIS])
  {
    assert [GENESIS][..1] == [GENESIS];
    assert HoldsAt(o, FRESH_INDEX, [GENESIS], 0);
  }

  lemma StepKeepsIndex(o: Oracle, n: Node, e: Event)
    requires Wf(n.forks) && IndexInv(o, n.index)
    ensures IndexInv(o, Step(o, n, e).index)
  {
    hide UpdateCanonical, Select, HandleNewBlock, HandleAnswer, ConfirmBlockAndAncestors, Holds, CanonicalChain, Replay,
      Keyed;
    if e.StartMining? {
      UpdateCanonicalReplays(o, n.forks, n.index);
    } else if e.Restart? {
      LatestState(o, n.index);
      assert Step(o, n, e).index == n.index;
    }
  }

  /** The canonical-store invariant, over every run from a new node: arbitrary, invalid or misnumbered blocks,
      exceptions halfway through a reorganisation and restarts included. */
  lemma {:induction false} CanonicalStoreAlwaysHoldsAChain(o: Oracle, events: seq<Event>)
    ensures var x := Run(o, events).index; Holds(o, x, CanonicalChain(x))
    decreases |events|
  {
    if events == [] {
      FreshIndexHolds(o);
      HoldsIsCanonical(o, FRESH_INDEX, [GENESIS]);
    } else {
      var front := events[..|events| - 1];
      CanonicalStoreAlwaysHoldsAChain(o, front);
      StepKeepsIndex(o, Run(o, front), events[|events| - 1]);
    }
  }

  /** Any two runs that end with the same highest block and then canonicalise it hold the same chain and states. */
  lemma RunsWithTheSameTipAgree(o: Oracle, here: seq<Event>, there: seq<Event>)
    requires var a, b := Run(o, here), Run(o, there);
             && a.forks.highest.Some? && a.forks.highest == b.forks.highest
             && UpdateCanonical(o, a.forks, a.index).error.None?
             && UpdateCanonical(o, b.forks, b.index).error.None?
    ensures var a, b := Run(o, here), Run(o, there);
            var x, y := UpdateCanonical(o, a.forks, a.index).state, UpdateCanonical(o, b.forks, b.index).state;
            && CanonicalChain(x) == CanonicalChain(y) == Ancestors(a.forks.highest.value)
            && x.latest == y.latest == Some(|CanonicalChain(x)| - 1)
            && forall n :: 0 <= n <= x.latest.value ==>
                 && n in x.nums && n in y.nums && x.nums[n] == y.nums[n]
                 && n in x.states && n in y.states && x.states[n] == y.states[n]
  {
    hide Run, UpdateCanonical, CanonicalChain, Holds, Ancestors, Wf;
    CanonicalStoreAlwaysHoldsAChain(o, here);
    CanonicalStoreAlwaysHoldsAChain(o, there);
    var a, b := Run(o, here), Run(o, there);
    UpdatedChain(o, a.forks, a.index);
    UpdatedChain(o, b.forks, b.index);
    SameTipSameChain(o, a.forks, a.index, b.forks, b.index);
  }

  lemma UpdatedChain(o: Oracle, f: Forks, x: Index)
    requires Wf(f) && IndexInv(o, x) && f.highest.Some? && UpdateCanonical(o, f, x).error.None?
    ensures CanonicalChain(UpdateCanonical(o, f, x).state) == Ancestors(f.highest.value)
  {
    UpdateCanonicalReplays(o, f, x);
    HoldsIsCanonical(o, UpdateCanonical(o, f, x).state, Ancestors(f.highest.value));
  }

  /** After every run, every stored snapshot up to latest is the closed form of its chain. */
  lemma EverySnapshotIsClosed(o: Oracle, events: seq<Event>, n: int)
    requires 0 <= n <= Run(o, events).index.latest.GetOr(0)
    ensures var x := Run(o, events).index;
            var chain := CanonicalChain(x);
            && n < |chain| && n in x.states
            && Closed(x.states[n], Transactions(chain[1..n + 1]), chain[1..n + 1], 10000 * n)
  {
    CanonicalStoreAlwaysHoldsAChain(o, events);
    var x := Run(o, events).index;
    var chain := CanonicalChain(x);
    assert HoldsAt(o, x, chain, n);
    LedgerClosedForm(o, chain[..n + 1]);
    assert chain[..n + 1][1..] == chain[1..n + 1];
  }

  // ----- The fork manager -----

  /** The canonical head can be loaded from the block storage. */
  predicate HeadStored(n: Node) {
    n.index.cachedHash in n.forks.blocks
  }

  /** `NodeInv` ties the fork manager's own invariant to the miner: the block it would mine on is stored. Until there
      is a highest block that is the canonical head. */
  ghost predicate NodeInv(o: Oracle, n: Node) {
    && ForkInv(n.forks)
    && IndexInv(o, n.index)
    && (n.forks.highest.None? ==> HeadStored(n))
    && (n.candidate.Some? ==> n.candidate.value.parentHash in n.forks.blocks)
  }

  /** After a successful update the head is stored: it is the highest block, or the head there was when there is
      none. */
  lemma UpdatedHead(o: Oracle, n: Node)
    requires NodeInv(o, n) && UpdateCanonical(o, n.forks, n.index).error.None?
    ensures var x := UpdateCanonical(o, n.forks, n.index).state;
            && IndexInv(o, x)
            && x.cachedHash in n.forks.blocks
            && (match n.forks.highest
                case None => x == n.index
                case Some(t) => CanonicalChain(x) == Ancestors(t))
  {
    UpdateCanonicalReplays(o, n.forks, n.index);
    if n.forks.highest.Some? {
      HoldsIsCanonical(o, UpdateCanonical(o, n.forks, n.index).state, Ancestors(n.forks.highest.value));
    }
  }

  /** The first phase of mining builds the template on top of the head that the update left, from its replayed state. */
  lemma StartMiningExtendsHead(o: Oracle, n: Node, coinbase: bytes)
    requires NodeInv(o, n) && StartMiningStep(o, n, coinbase).candidate.Some?
    ensures var n' := StartMiningStep(o, n, coinbase);
            && UpdateCanonical(o, n.forks, n.index) == Outcome(None, n'.index)
            && n'.forks == n.forks
            && var chain := CanonicalChain(n'.index);
            && (match n.forks.highest
                case None => n'.index == n.index
                case Some(t) => chain == Ancestors(t))
            && Replay(o, chain).Ok?
            && n'.candidate.value == Template(Replay(o, chain).value, coinbase,
                 Select(o, n.pool, Replay(o, chain).value, MAX_TRANSACTIONS_PER_BLOCK).chosen)
            && n'.candidate.value.parentHash == n'.index.cachedHash
            && n'.index.cachedHash in n.forks.blocks
            && n'.candidate.value.number == |chain|
  {
    hide Select;
    UpdatedHead(o, n);
    LatestState(o, UpdateCanonical(o, n.forks, n.index).state);
  }

  lemma StartMiningKeepsNodeInv(o: Oracle, n: Node, coinbase: bytes)
    requires NodeInv(o, n)
    ensures NodeInv(o, StartMiningStep(o, n, coinbase))
  {
    hide FirstHighest, ClosedBut, Keyed, UpdateCanonical, Holds, Select, Replay, Ancestors, CanonicalChain;
    UpdateCanonicalReplays(o, n.forks, n.index);
    if StartMiningStep(o, n, coinbase).candidate.Some? {
      StartMiningExtendsHead(o, n, coinbase);
    }
  }

  lemma MinedKeepsNodeInv(o: Oracle, n: Node, nonce: nat)
    requires NodeInv(o, n)
    ensures NodeInv(o, MinedStep(o, n, nonce))
  {
    if n.candidate.Some? {
      ProduceKeeps(n.forks, n.candidate.value.(nonce := nonce));
    }
  }

  lemma StepKeepsNodeInvIff(o: Oracle, n: Node, e: Event)
    requires NodeInv(o, n)
    ensures NodeInv(o, Step(o, n, e)) <==> FindsHead(n, e)
  {
    hide FirstHighest, ClosedBut, Keyed, HandleNewBlock, HandleAnswer, StartMiningStep, MinedStep, Holds,
      CanonicalChain, LoadState;
    match e {
      case NewBlock(b) => HandleNewBlockKeeps(o, n.forks, b);
      case Answer(q, reply) => HandleAnswerKeeps(o, n.forks, q, reply);
      case StartMining(coinbase) => StartMiningKeepsNodeInv(o, n, coinbase);
      case Mined(nonce) => MinedKeepsNodeInv(o, n, nonce);
      case Restart => LatestState(o, n.index);
      case _ =>
    }
  }

  /** A restart finds the canonical head stored. */
  predicate FindsHead(n: Node, e: Event) {
    e.Restart? ==> HeadStored(n)
  }

  /** What the node mines on is stored at every point of a run, whatever blocks arrive, if and only if every restart
      finds the canonical head stored; without restarts, always. The fork-manager invariant is part of it. */
  lemma NodeInvAlwaysIff(o: Oracle, events: seq<Event>)
    ensures Always(o, events, n => NodeInv(o, n)) <==> AtEachStep(o, events, FindsHead)
    ensures AtEachStep(o, events, FindsHead) ==> NodeInv(o, Run(o, events))
  {
    hide NodeInv, HeadStored, Step, FindsHead;
    FreshNodeInv(o);
    forall n: Node, e: Event | Wf(n.forks) && NodeInv(o, n)
      ensures NodeInv(o, Step(o, n, e)) <==> FindsHead(n, e) {
      StepKeepsNodeInvIff(o, n, e);
    }
    AlwaysIff(o, events, n => true, n => NodeInv(o, n), FindsHead);
  }

  lemma FreshNodeInv(o: Oracle)
    ensures NodeInv(o, FRESH)
  {
    FreshIndexHolds(o);
    HoldsIsCanonical(o, FRESH_INDEX, [GENESIS]);
  }

  lemma NodeInvWithoutRestarts(o: Oracle, events: seq<Event>)
    requires Restart !in events
    ensures NodeInv(o, Run(o, events))
  {
    hide NodeInv, Run;
    NodeInvAlwaysIff(o, events);
  }

  ghost predicate ForksHold(n: Node) {
    ForkInv(n.forks)
  }

  /** A mined block that meets the difficulty finds all its ancestors known, down to number 0 or a confirmed block. */
  ghost predicate MinesOnKnown(o: Oracle, n: Node, e: Event) {
    && e.Mined? && n.candidate.Some? && Wf(n.forks) && o.meets(Digest(n.candidate.value.(nonce := e.nonce)))
    ==> FindGap(n.forks, n.candidate.value.(nonce := e.nonce)) == Ok(None)
  }

  lemma StepKeepsForkInvIff(o: Oracle, n: Node, e: Event)
    requires ForksHold(n)
    ensures ForksHold(Step(o, n, e)) <==> MinesOnKnown(o, n, e)
  {
    hide FirstHighest, ClosedBut, HandleNewBlock, HandleAnswer, StartMiningStep, ConfirmBlockAndAncestors, FindGap;
    match e {
      case NewBlock(b) => HandleNewBlockKeeps(o, n.forks, b);
      case Answer(q, reply) => HandleAnswerKeeps(o, n.forks, q, reply);
      case StartMining(coinbase) => MiningKeepsForks(o, n, coinbase);
      case Mined(nonce) =>
        if n.candidate.Some? {
          ConfirmKeepsIff(n.forks, n.candidate.value.(nonce := nonce));
        }
      case Restart => RestartedForkInv(n.forks);
      case _ =>
    }
  }

  lemma RestartedForkInv(f: Forks)
    requires ForkInv(f)
    ensures ForkInv(FRESH_FORKS.(blocks := f.blocks))
  {
  }

  /** The fork-manager invariant over every run, with no condition on arrivals or restarts: it holds at every point
      if and only if every mined block that meets the difficulty finds all its ancestors known. */
  lemma ForkInvAlwaysIff(o: Oracle, events: seq<Event>)
    ensures Always(o, events, ForksHold) <==> AtEachStep(o, events, (n, e) => MinesOnKnown(o, n, e))
    ensures AtEachStep(o, events, (n, e) => MinesOnKnown(o, n, e)) ==> ForksHold(Run(o, events))
  {
    hide ForkInv, Step, MinesOnKnown;
    FreshForkInv();
    forall n: Node, e: Event | Wf(n.forks) && ForksHold(n)
      ensures ForksHold(Step(o, n, e)) <==> MinesOnKnown(o, n, e) {
      StepKeepsForkInvIff(o, n, e);
    }
    AlwaysIff(o, events, n => true, ForksHold, (n, e) => MinesOnKnown(o, n, e));
  }

  lemma FreshForkInv()
    ensures ForksHold(FRESH)
  {
  }

  /** In every such run, restarts included, an update returns normally exactly when the canonical head is stored, the
      highest block's ancestry is a valid chain, and it is no lower than the stored latest block. */
  lemma UpdatesSucceedIff(o: Oracle, events: seq<Event>)
    requires AtEachStep(o, events, (n, e) => MinesOnKnown(o, n, e)) && Run(o, events).forks.highest.Some?
    ensures var n := Run(o, events);
            UpdateCanonical(o, n.forks, n.index).error.None? <==>
            && HeadStored(n)
            && Replay(o, Ancestors(n.forks.highest.value)).Ok?
            && LatestNum(n.index) <= n.forks.highest.value.number
  {
    hide UpdateCanonical, ForkInv, MinesOnKnown, Run, Replay, Ancestors, Holds, CanonicalChain, AtEachStep;
    ForkInvAlwaysIff(o, events);
    CanonicalStoreAlwaysHoldsAChain(o, events);
    UpdateSucceedsIff(o, Run(o, events).forks, Run(o, events).index);
  }

  // ----- The highest block -----

  lemma {:induction false} ConfirmWalkKeepsTip(f: Forks, cur: Block)
    requires Wf(f)
    ensures ConfirmWalk(f, cur).state.highest == f.highest
    decreases cur
  {
    if !IsConfirmed(f, Digest(cur)) && cur.number != 0 {
      var f' := ConfirmBlock(f, cur);
      if GetParent(f', cur).Ok? {
        ConfirmWalkKeepsTip(f', GetParent(f', cur).value);
      }
    }
  }

  lemma ConfirmRaisesTip(f: Forks, b: Block)
    requires Wf(f)
    ensures TipRises(f, ConfirmBlockAndAncestors(f, b).state)
  {
    hide ConfirmWalk;
    ConfirmWalkKeepsTip(f, b);
  }

  lemma AddRaisesTip(f: Forks, b: Block)
    requires Wf(f)
    ensures TipRises(f, AddBlockAndAncestors(f, b).state)
  {
    hide ConfirmBlockAndAncestors, FindGap;
    ConfirmRaisesTip(AddBlock(f, b), b);
  }

  lemma AnswerRaisesTip(o: Oracle, f: Forks, q: Query, reply: Option<Block>)
    requires Wf(f)
    ensures TipRises(f, HandleAnswer(o, f, q, reply))
  {
    hide AddBlockAndAncestors;
    if reply.Some? {
      AddRaisesTip(AddBlock(f, reply.value), q.block);
    }
  }

  /** In every run, whatever arrives and raises, each step but a restart keeps the highest block or replaces it by a
      strictly higher one. */
  lemma HighestOnlyRises(o: Oracle, events: seq<Event>, e: Event)
    requires !e.Restart?
    ensures TipRises(Run(o, events).forks, Step(o, Run(o, events), e).forks)
  {
    hide StartMiningStep, HandleAnswer, AddBlockAndAncestors, ConfirmBlockAndAncestors, Run, Keyed;
    var n := Run(o, events);
    match e {
      case NewBlock(b) => AddRaisesTip(n.forks, b);
      case Answer(q, reply) => AnswerRaisesTip(o, n.forks, q, reply);
      case StartMining(coinbase) => MiningKeepsForks(o, n, coinbase);
      case Mined(nonce) =>
        if n.candidate.Some? {
          ConfirmRaisesTip(n.forks, n.candidate.value.(nonce := nonce));
        }
      case _ =>
    }
  }

  lemma MiningKeepsForks(o: Oracle, n: Node, coinbase: bytes)
    requires Wf(n.forks)
    ensures StartMiningStep(o, n, coinbase).forks == n.forks
  {
    hide UpdateCanonical;
  }

  // ----- The producer -----

  /** A producer round always extends the chain, the first one after a restart included: if the first phase yields a
      candidate and a nonce is found with no other arrivals between, the block becomes the highest one, and
      the next update appends exactly it to the canonical chain without raising. */
  lemma ProducerRoundExtendsTheChain(o: Oracle, n: Node, coinbase: bytes, nonce: nat)
    requires NodeInv(o, n)
    requires var started := StartMiningStep(o, n, coinbase);
             started.candidate.Some? && o.meets(Digest(started.candidate.value.(nonce := nonce)))
    ensures var started := StartMiningStep(o, n, coinbase);
            var b := started.candidate.value.(nonce := nonce);
            var mined := MinedStep(o, started, nonce);
            var updated := UpdateCanonical(o, mined.forks, mined.index);
            && mined.forks.highest == Some(b)
            && updated.error.None?
            && Holds(o, updated.state, CanonicalChain(started.index) + [b])
  {
    hide FirstHighest, ClosedBut, Keyed, UpdateCanonical, Replay, Ledger.ApplyBlock, Select,
      ConfirmBlockAndAncestors, Holds;
    var started := StartMiningStep(o, n, coinbase);
    var b := started.candidate.value.(nonce := nonce);
    var mined := MinedStep(o, started, nonce);
    StartMiningExtendsHead(o, n, coinbase);
    StartMiningKeepsNodeInv(o, n, coinbase);
    MinedKeepsNodeInv(o, started, nonce);
    ProduceKeeps(started.forks, b);
    var chain := CanonicalChain(started.index);
    var s := Replay(o, chain).value;
    ReplayShape(o, chain);
    LatestState(o, started.index);
    MinedIsHighest(started.forks, b);
    BuilderAgreesWithValidator(o, s, n.pool, coinbase, nonce);
    AppendOne(o, mined.forks, mined.index, b, chain[|chain| - 1]);
  }

  lemma MinedIsHighest(f: Forks, b: Block)
    requires ForkInv(f) && b.parentHash in f.blocks
    requires f.highest.Some? ==> b.number > f.highest.value.number
    ensures ConfirmBlockAndAncestors(f, b).state.highest == Some(b)
  {
    ProduceKeeps(f, b);
    ConfirmWalkKeepsTip(f, b);
  }

  /** One valid block on top of the canonical head is appended by the next update. */
  lemma AppendOne(o: Oracle, f: Forks, x: Index, b: Block, head: Block)
    requires Wf(f) && IndexInv(o, x) && f.highest == Some(b)
    requires var chain := CanonicalChain(x);
             && head == chain[|chain| - 1] && b.parentHash == Digest(head) && b.number == |chain|
             && Digest(head) in f.blocks
             && ApplyBlock(o, b, Replay(o, chain).value).Ok?
    ensures var updated := UpdateCanonical(o, f, x);
            updated.error.None? && Holds(o, updated.state, CanonicalChain(x) + [b])
  {
    var chain := CanonicalChain(x);
    LatestState(o, x);
    ReplayShape(o, chain);
    assert HoldsAt(o, x, chain, |chain| - 1);
    assert GetParent(f, b) == Ok(head);
    assert Descend(f, head, head.number, [b]) == Ok((head, [b]));
    assert Descend(f, b, head.number, []) == Ok((head, [b])) by {
      assert [] + [b] == [b];
    }
    assert Meet(f, head, head, [b]) == Ok((head, [b]));
    assert CurrentAndFork(f, x) == Ok((head, [b]));
    var s' := ApplyBlock(o, b, Replay(o, chain).value).value;
    assert ApplyTodo(o, [], s', Record(x, b, s')) == Outcome(None, Record(x, b, s'));
    assert ApplyTodo(o, [b], Replay(o, chain).value, x) == Outcome(None, Record(x, b, s')) by {
      assert [b][..0] == [];
    }
    RecordHolds(o, x, chain, chain, b);
  }

  // ----- Runs with well-numbered blocks -----

  predicate EventWellNumbered(e: Event) {
    match e
    case NewBlock(b) => WellNumbered(b)
    case Answer(_, Some(b)) => WellNumbered(b)
    case Restart => false
    case _ => true
  }

  ghost predicate StrongNodeInv(o: Oracle, n: Node) {
    && NodeInv(o, n)
    && StrongInv(n.forks)
    && HeadBelowTip(o, n.forks, n.index)
    && (n.candidate.Some? ==> n.candidate.value != GENESIS && WellNumbered(n.candidate.value))
  }

  lemma TemplateWellNumbered(b: Block, nonce: nat)
    requires WellNumbered(b) && b != GENESIS
    ensures WellNumbered(b.(nonce := nonce))
  {
    WellNumberedPositions(b);
  }

  lemma MinedKeepsStrong(o: Oracle, n: Node, nonce: nat)
    requires StrongNodeInv(o, n)
    ensures StrongNodeInv(o, MinedStep(o, n, nonce))
  {
    MinedKeepsNodeInv(o, n, nonce);
    if n.candidate.Some? {
      var b := n.candidate.value.(nonce := nonce);
      TemplateWellNumbered(n.candidate.value, nonce);
      ProduceKeeps(n.forks, b);
      ProduceKeepsStrong(n.forks, b);
      HeadBelowTipGrows(o, n.forks, ConfirmBlockAndAncestors(n.forks, b).state, n.index);
    }
  }

  lemma StartMiningKeepsStrong(o: Oracle, n: Node, coinbase: bytes)
    requires StrongNodeInv(o, n)
    ensures StrongNodeInv(o, StartMiningStep(o, n, coinbase))
  {
    hide UpdateCanonical, Select, Numbered, HighestIsMaximal, FirstHighest, ClosedBut, Keyed, Holds, Ancestors;
    StartMiningKeepsNodeInv(o, n, coinbase);
    UpdateCanonicalNeverMissesABlock(o, n.forks, n.index);
    if StartMiningStep(o, n, coinbase).candidate.Some? {
      StartMiningExtendsHead(o, n, coinbase);
      WellNumberedPositions(n.forks.highest.GetOr(GENESIS));
      LatestState(o, StartMiningStep(o, n, coinbase).index);
    }
  }

  lemma StepKeepsStrong(o: Oracle, n: Node, e: Event)
    requires StrongNodeInv(o, n) && EventWellNumbered(e)
    ensures StrongNodeInv(o, Step(o, n, e))
  {
    hide FirstHighest, ClosedBut, Keyed, Holds, HeadBelowTip, Numbered, HighestIsMaximal, HandleNewBlock,
      HandleAnswer, StartMiningStep, MinedStep, Ancestors;
    StepKeepsNodeInvIff(o, n, e);
    match e {
      case NewBlock(b) =>
        HandleNewBlockKeeps(o, n.forks, b);
        HandleNewBlockKeepsStrong(o, n.forks, b);
        HeadBelowTipGrows(o, n.forks, HandleNewBlock(o, n.forks, b).state, n.index);
      case Answer(q, reply) =>
        if q in n.forks.queries {
          HandleAnswerKeeps(o, n.forks, q, reply);
          HandleAnswerKeepsStrong(o, n.forks, q, reply);
          HeadBelowTipGrows(o, n.forks, HandleAnswer(o, n.forks, q, reply), n.index);
        }
      case StartMining(coinbase) => StartMiningKeepsStrong(o, n, coinbase);
      case Mined(nonce) => MinedKeepsStrong(o, n, nonce);
      case _ =>
    }
  }

  /** Over every run without restarts in which every arriving block is well numbered: the highest block is the
      first of the highest confirmed ones, the canonical head is stored and never above it, and an update can
      raise only because a block of the new branch is invalid. */
  lemma {:induction false} WellNumberedRuns(o: Oracle, events: seq<Event>)
    requires forall e :: e in events ==> EventWellNumbered(e)
    ensures var n := Run(o, events);
            && StrongNodeInv(o, n)
            && HighestIsMaximal(n.forks)
            && (n.forks.highest.Some? ==>
                  && FirstHighest(n.forks.offered, n.forks.highest.value)
                  && n.index.latest.value <= n.forks.highest.value.number)
            && var updated := UpdateCanonical(o, n.forks, n.index);
            && (updated.error.Some? ==> IsInvalidBlock(updated.error.value))
            && (n.forks.highest.Some? ==>
                  (updated.error.None? <==> Replay(o, Ancestors(n.forks.highest.value)).Ok?))
    decreases |events|
  {
    if events == [] {
      FreshIndexHolds(o);
      HoldsIsCanonical(o, FRESH_INDEX, [GENESIS]);
    } else {
      var front := events[..|events| - 1];
      WellNumberedRuns(o, front);
      StepKeepsStrong(o, Run(o, front), events[|events| - 1]);
    }
    SucceedsWhenTipReplays(o, Run(o, events));
  }

  /** Then an update returns normally exactly when the highest block's ancestry is a valid chain. */
  lemma SucceedsWhenTipReplays(o: Oracle, n: Node)
    requires StrongNodeInv(o, n)
    ensures var updated := UpdateCanonical(o, n.forks, n.index);
            && (updated.error.Some? ==> IsInvalidBlock(updated.error.value))
            && (n.forks.highest.Some? ==>
                  (updated.error.None? <==> Replay(o, Ancestors(n.forks.highest.value)).Ok?))
  {
    hide FirstHighest, ClosedBut, Keyed, Numbered, HighestIsMaximal, UpdateCanonical, Replay, Ancestors, HoldsAt;
    UpdateCanonicalNeverMissesABlock(o, n.forks, n.index);
    if n.forks.highest.Some? {
      LatestState(o, n.index);
      UpdateSucceedsIff(o, n.forks, n.index);
    }
  }
}
