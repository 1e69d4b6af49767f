/** What each step of a node does to its mempool, its candidate block, its canonical chain and its highest block, over
    every run. */
module NodeSteps {
  import opened Types
  import opened Ledger
  import opened LedgerTheorems
  import opened Pool
  import opened ForkChoice
  import opened ForkEffects
  import opened Canonical
  import opened Reorganisation
  import opened NodeRuns

  // ----- What a step leaves alone -----

  /** Which parts of a node each event can touch, and what becomes of the block being mined. */
  lemma StepTouches(o: Oracle, n: Node, e: Event)
    requires Wf(n.forks) && IndexInv(o, n.index)
    ensures var m := Step(o, n, e);
            match e
            case NewBlock(b) => m == n.(forks := m.forks) && (!o.meets(Digest(b)) ==> m == n)
            case Answer(q, reply) => m == n.(forks := m.forks) && (q !in n.forks.queries ==> m == n)
            case StartMining(coinbase) => m.forks == n.forks
            case Mined(nonce) =>
              if n.candidate.Some? && o.meets(Digest(n.candidate.value.(nonce := nonce)))
              then m == n.(forks := m.forks, candidate := None)
              else m == n
            case AbortMining => m == n.(candidate := None)
            case Restart =>
              m == Node(Forks(map[], {}, n.forks.blocks, None, multiset{}, []), n.index, [], None)
            case _ => m == n.(pool := m.pool)
  {
    hide UpdateCanonical, HandleNewBlock, HandleAnswer, ConfirmBlockAndAncestors, Select, Holds, CanonicalChain, Replay;
    LatestState(o, n.index);
    match e {
      case NewBlock(b) => RefusedBlockChangesNothing(o, n.forks, b);
      case StartMining(coinbase) => MiningKeepsForks(o, n, coinbase);
      case _ =>
    }
  }

  lemma RefusedBlockChangesNothing(o: Oracle, f: Forks, b: Block)
    requires Wf(f)
    ensures !o.meets(Digest(b)) ==> HandleNewBlock(o, f, b) == Outcome(None, f)
  {
  }

  // ----- The mempool -----

  /** Who is in the mempool after a step. Mining evicts only what its selection rejected, and keeps what it chose. */
  lemma PoolAfterStep(o: Oracle, n: Node, e: Event, tx: Transaction)
    requires Wf(n.forks) && IndexInv(o, n.index)
    ensures var pool := Step(o, n, e).pool;
            match e
            case GossipedTransaction(t) => tx in pool <==> tx in n.pool || (tx == t && o.signature(tx) == Accepts)
            case OwnTransaction(t) => tx in pool <==> tx in n.pool || (tx == t && tx.sig != [])
            case TransactionTimedOut(t) => tx in pool <==> tx in n.pool && tx != t
            case Restart => pool == []
            case StartMining(coinbase) =>
              tx in pool <==> tx in n.pool && tx !in RejectedByMining(o, n)
            case _ => pool == n.pool
  {
    hide UpdateCanonical, HandleNewBlock, HandleAnswer, ConfirmBlockAndAncestors, Select, Holds, CanonicalChain, Replay,
      LoadState, ApplyTodo;
    if e.StartMining? {
      UpdateCanonicalReplays(o, n.forks, n.index);
      LatestState(o, UpdateCanonical(o, n.forks, n.index).state);
    }
  }

  /** What a mining step rejects: nothing when its update raises, otherwise what does not apply on the replayed state
      of the updated chain. */
  ghost function RejectedByMining(o: Oracle, n: Node): seq<Transaction>
    requires Wf(n.forks)
  {
    var updated := UpdateCanonical(o, n.forks, n.index);
    if updated.error.Some? || Replay(o, CanonicalChain(updated.state)).Err? then []
    else Select(o, n.pool, Replay(o, CanonicalChain(updated.state)).value, 10).evicted
  }

  lemma StepKeepsDistinct(o: Oracle, n: Node, e: Event)
    requires Wf(n.forks) && Distinct(n.pool)
    ensures Distinct(Step(o, n, e).pool)
  {
    hide UpdateCanonical, HandleNewBlock, HandleAnswer, ConfirmBlockAndAncestors, Select, Distinct, Evict;
    match e {
      case TransactionTimedOut(tx) => EvictKeepsDistinct(n.pool, [tx]);
      case StartMining(coinbase) =>
        var updated := UpdateCanonical(o, n.forks, n.index);
        if updated.error.None? && LoadState(updated.state, LatestNum(updated.state)).Ok? {
          var s := LoadState(updated.state, LatestNum(updated.state)).value;
          EvictKeepsDistinct(n.pool, Select(o, n.pool, s, MAX_TRANSACTIONS_PER_BLOCK).evicted);
        }
      case Restart => NothingIsDistinct();
      case _ =>
    }
  }

  lemma NothingIsDistinct()
    ensures Distinct([])
  {
  }

  /** Over every run the mempool holds no transaction twice, and each it holds was accepted by the signature check or
      was announced, signed, by the node itself. */
  lemma {:induction false} PoolIsVetted(o: Oracle, events: seq<Event>, tx: Transaction)
    ensures Distinct(Run(o, events).pool)
    ensures tx in Run(o, events).pool ==>
              || (o.signature(tx) == Accepts && GossipedTransaction(tx) in events)
              || (tx.sig != [] && OwnTransaction(tx) in events)
    decreases |events|
  {
    hide Step, Distinct, Holds, CanonicalChain;
    if events == [] {
      NothingIsDistinct();
    } else {
      var front, last := events[..|events| - 1], events[|events| - 1];
      PoolIsVetted(o, front, tx);
      CanonicalStoreAlwaysHoldsAChain(o, front);
      StepKeepsDistinct(o, Run(o, front), last);
      PoolAfterStep(o, Run(o, front), last, tx);
      assert events == front + [last];
    }
  }

  // ----- The candidate block -----

  lemma {:induction false} InterleavedParts(tried: seq<Transaction>, chosen: seq<Transaction>,
                                            evicted: seq<Transaction>, tx: Transaction)
    requires Interleaved(tried, chosen, evicted)
    ensures tx in chosen || tx in evicted <==> tx in tried
    ensures Distinct(tried) ==> !(tx in chosen && tx in evicted)
  {
    if tried != [] {
      if chosen != [] && chosen[0] == tried[0] && Interleaved(tried[1..], chosen[1..], evicted) {
        InterleavedParts(tried[1..], chosen[1..], evicted, tx);
        FirstIsNew(tried);
      } else {
        InterleavedParts(tried[1..], chosen, evicted[1..], tx);
        FirstIsNew(tried);
      }
    }
  }

  lemma FirstIsNew(pool: seq<Transaction>)
    requires pool != []
    ensures Distinct(pool) ==> pool[0] !in pool[1..] && Distinct(pool[1..])
  {
    assert forall i :: 0 <= i < |pool| - 1 ==> pool[1..][i] == pool[i + 1];
  }

  lemma ChosenStays(o: Oracle, pool: seq<Transaction>, s: State, tx: Transaction)
    requires tx in Select(o, pool, s, MAX_TRANSACTIONS_PER_BLOCK).chosen
    ensures tx in pool
    ensures Distinct(pool) ==> tx in Evict(pool, Select(o, pool, s, MAX_TRANSACTIONS_PER_BLOCK).evicted)
  {
    hide Select, Evict, Interleaved, Distinct;
    var picked := Select(o, pool, s, MAX_TRANSACTIONS_PER_BLOCK);
    SelectSound(o, pool, s, MAX_TRANSACTIONS_PER_BLOCK);
    InterleavedParts(pool[..picked.tried], picked.chosen, picked.evicted, tx);
    PrefixIsDistinct(pool, picked.tried);
  }

  lemma PrefixIsDistinct(pool: seq<Transaction>, k: nat)
    requires k <= |pool|
    ensures Distinct(pool) ==> Distinct(pool[..k])
  {
  }

  /** A mining step yields a candidate exactly when its update returns normally and no signature check raises. */
  lemma CandidateIff(o: Oracle, n: Node, coinbase: bytes)
    requires Wf(n.forks) && IndexInv(o, n.index)
    ensures var updated := UpdateCanonical(o, n.forks, n.index);
            && IndexInv(o, updated.state) && Replay(o, CanonicalChain(updated.state)).Ok?
            && (StartMiningStep(o, n, coinbase).candidate.Some? <==>
                && updated.error.None?
                && !Select(o, n.pool, Replay(o, CanonicalChain(updated.state)).value, 10).raised)
  {
    hide UpdateCanonical, Select, Replay, Holds, CanonicalChain;
    UpdateCanonicalReplays(o, n.forks, n.index);
    LatestState(o, UpdateCanonical(o, n.forks, n.index).state);
  }

  /** What is being mined, in every state with a sound index: at most ten transactions of the mempool, those the
      selection on the canonical chain's state chose, on top of that chain; they stay in the mempool, continue the
      chain's nonce order, repeat nothing on it, and the block is valid with every nonce that meets the difficulty. */
  lemma CandidateIsBuilt(o: Oracle, n: Node, coinbase: bytes)
    requires Wf(n.forks) && IndexInv(o, n.index) && StartMiningStep(o, n, coinbase).candidate.Some?
    ensures var n' := StartMiningStep(o, n, coinbase);
            var b, chain := n'.candidate.value, CanonicalChain(n'.index);
            && |chain| >= 1 && Replay(o, chain).Ok?
            && var before := Transactions(chain[1..]);
            && b.transactions == Select(o, n.pool, Replay(o, chain).value, 10).chosen && |b.transactions| <= 10
            && b.number == |chain| && b.parentHash == Digest(chain[|chain| - 1])
            && b.coinbase == coinbase && b.nonce == 0
            && InNonceOrder(before + b.transactions)
            && (forall tx :: tx in b.transactions ==> tx in n.pool && (Distinct(n.pool) ==> tx in n'.pool))
            && (forall i, j :: 0 <= i < |before| && 0 <= j < |b.transactions| ==>
                  (before[i].sender, before[i].nonce) != (b.transactions[j].sender, b.transactions[j].nonce))
            && (forall nonce :: o.meets(Digest(b.(nonce := nonce))) ==>
                  ApplyBlock(o, b.(nonce := nonce), Replay(o, chain).value).Ok?)
  {
    hide UpdateCanonical, Select, Replay, Holds, CanonicalChain, Transactions, InNonceOrder, Evict, Distinct,
      Ledger.ApplyBlock, LoadState;
    CandidateIff(o, n, coinbase);
    var x := UpdateCanonical(o, n.forks, n.index).state;
    LatestState(o, x);
    var chain := CanonicalChain(x);
    var s := Replay(o, chain).value;
    var n', before := StartMiningStep(o, n, coinbase), Transactions(chain[1..]);
    var b := n'.candidate.value;
    BuilderAgreesWithValidator(o, s, n.pool, coinbase, 0);
    BuiltBlockIsValid(o, s, n.pool, coinbase);
    SelectionContinuesOrder(o, chain, n.pool);
    forall tx | tx in b.transactions ensures tx in n.pool && (Distinct(n.pool) ==> tx in n'.pool) {
      ChosenStays(o, n.pool, s, tx);
    }
    forall i, j | 0 <= i < |before| && 0 <= j < |b.transactions|
      ensures (before[i].sender, before[i].nonce) != (b.transactions[j].sender, b.transactions[j].nonce) {
      NoncesDiffer(before + b.transactions, i, |before| + j);
    }
  }

  // ----- The canonical chain -----

  /** Over every run, restarts included, only mining touches the canonical chain, and what it does is an update: the
      chain stays as it is, or becomes a part of the highest block's line that is longer than what they shared. */
  lemma ChainAfterStep(o: Oracle, events: seq<Event>, e: Event)
    ensures var n, m := Run(o, events), Step(o, Run(o, events), e);
            && (!e.StartMining? ==> m.index == n.index)
            && (m.index == n.index
                || (&& n.forks.highest.Some?
                    && var line := Ancestors(n.forks.highest.value);
                       CanonicalChain(m.index) <= line
                       && |CanonicalChain(m.index)| > CommonLength(line, CanonicalChain(n.index))))
  {
    hide UpdateCanonical, Select, HandleNewBlock, HandleAnswer, ConfirmBlockAndAncestors, Holds, CanonicalChain, Run,
      Ancestors, CommonLength, SameOutside, WalksSucceed, Replay;
    CanonicalStoreAlwaysHoldsAChain(o, events);
    var n := Run(o, events);
    match e {
      case StartMining(coinbase) =>
        if n.forks.highest.Some? {
          var k := UpdateExact(o, n.forks, n.index);
        } else {
          UpdateCanonicalReplays(o, n.forks, n.index);
        }
      case Restart => LatestState(o, n.index);
      case _ =>
    }
  }

  /** A restarted node keeps its whole chain until its highest block has caught up with it. */
  lemma LowTipKeepsChain(o: Oracle, events: seq<Event>, coinbase: bytes)
    requires var n := Run(o, events);
             && n.forks.highest.Some? && WellNumbered(n.forks.highest.value)
             && n.forks.highest.value.number < LatestNum(n.index)
    ensures var n, m := Run(o, events), Step(o, Run(o, events), StartMining(coinbase));
            m.index == n.index && m.candidate == None
  {
    hide UpdateCanonical, Select, Holds, CanonicalChain, Run, WellNumbered, Replay;
    CanonicalStoreAlwaysHoldsAChain(o, events);
    LowTipChangesNothing(o, Run(o, events).forks, Run(o, events).index);
  }

  // ----- The highest block -----

  /** The block a step offers as the tip: the one gossiped, waited for or mined, when it ends up stored. */
  function Offers(o: Oracle, n: Node, e: Event): seq<Block>
    requires Wf(n.forks)
  {
    var stored := Step(o, n, e).forks.blocks;
    match e
    case NewBlock(b) => if o.meets(Digest(b)) && Digest(b) in stored then [b] else []
    case Answer(q, Some(p)) =>
      if q in n.forks.queries && Admits(o, q, p) && Digest(q.block) in stored then [q.block] else []
    case Mined(nonce) =>
      if n.candidate.Some? && o.meets(Digest(n.candidate.value.(nonce := nonce)))
      then [n.candidate.value.(nonce := nonce)] else []
    case _ => []
  }

  /** The answer is the block asked for, fits below it and meets the difficulty. */
  predicate Admits(o: Oracle, q: Query, p: Block) {
    q.cur.parentHash == Digest(p) && q.cur.number == p.number + 1 && o.meets(Digest(p))
  }

  /** All blocks offered since the last restart. */
  function OfferedSince(o: Oracle, events: seq<Event>): seq<Block>
    decreases |events|
  {
    if events == [] then [] else
    var front, last := events[..|events| - 1], events[|events| - 1];
    if last.Restart? then [] else OfferedSince(o, front) + Offers(o, Run(o, front), last)
  }

  lemma RefusedOffersNothing(o: Oracle, f: Forks, q: Query, reply: Option<Block>)
    requires Wf(f) && (reply.Some? ==> !Admits(o, q, reply.value))
    ensures HandleAnswer(o, f, q, reply).offered == f.offered
  {
  }

  lemma AnswerOffers(o: Oracle, f: Forks, q: Query, reply: Option<Block>)
    requires ForkInv(f)
    ensures var g := HandleAnswer(o, f, q, reply);
            g.offered == f.offered + if reply.Some? && Admits(o, q, reply.value) && Digest(q.block) in g.blocks
                                     then [q.block] else []
  {
    if reply.Some? && Admits(o, q, reply.value) {
      AnswerSetsTip(o, f, q, reply.value);
    } else {
      RefusedOffersNothing(o, f, q, reply);
    }
  }

  lemma StepOffers(o: Oracle, n: Node, e: Event)
    requires ForksHold(n) && MinesOnKnown(o, n, e)
    ensures Step(o, n, e).forks.offered == if e.Restart? then [] else n.forks.offered + Offers(o, n, e)
  {
    hide FirstHighest, ClosedBut, HandleAnswer, StartMiningStep, ConfirmBlockAndAncestors, AddBlockAndAncestors,
      Ancestors, Unstored, FindGap;
    match e {
      case NewBlock(b) => var k := AddExact(n.forks, b);
      case Answer(q, reply) =>
        if q in n.forks.queries {
          AnswerOffers(o, n.forks, q, reply);
        }
      case StartMining(coinbase) => MiningKeepsForks(o, n, coinbase);
      case Mined(nonce) =>
        if n.candidate.Some? && o.meets(Digest(n.candidate.value.(nonce := nonce))) {
          var b := n.candidate.value.(nonce := nonce);
          var k := FindGapExact(n.forks, b);
          ConfirmExact(n.forks, b, k);
        }
      case _ =>
    }
  }

  lemma {:induction false} OfferedIs(o: Oracle, events: seq<Event>)
    requires AtEachStep(o, events, (n, e) => MinesOnKnown(o, n, e))
    ensures Run(o, events).forks.offered == OfferedSince(o, events)
    decreases |events|
  {
    hide Step, MinesOnKnown, AtEachStep, ForksHold, Offers;
    if events != [] {
      var front := events[..|events| - 1];
      AtEachStepSplit(o, events, (n, e) => MinesOnKnown(o, n, e));
      OfferedIs(o, front);
      ForkInvAlwaysIff(o, front);
      StepOffers(o, Run(o, front), events[|front|]);
    }
  }

  /** Fork choice over every run in which the fork-manager invariant holds, restarts included and for arbitrary
      blocks: there is a highest block once one was offered since the last restart, and it is the first of the
      highest ones offered, whether or not they had been stored before. */
  lemma ForkChoiceOverRuns(o: Oracle, events: seq<Event>)
    requires AtEachStep(o, events, (n, e) => MinesOnKnown(o, n, e))
    ensures var highest, offered := Run(o, events).forks.highest, OfferedSince(o, events);
            && (highest.None? <==> offered == [])
            && (highest.Some? ==> FirstHighest(offered, highest.value))
  {
    hide FirstHighest, ClosedBut, Run, OfferedSince, AtEachStep, MinesOnKnown;
    ForkInvAlwaysIff(o, events);
    OfferedIs(o, events);
  }

  /** In such a run a gossiped block that ends up stored leaves the highest block at least as high, and becomes it
      when there was none or a lower one. */
  lemma ArrivalOverRuns(o: Oracle, events: seq<Event>, b: Block)
    requires AtEachStep(o, events, (n, e) => MinesOnKnown(o, n, e)) && o.meets(Digest(b))
    ensures var f, g := Run(o, events).forks, Step(o, Run(o, events), NewBlock(b)).forks;
            && (Digest(b) in f.blocks ==> Digest(b) in g.blocks)
            && (Digest(b) in g.blocks ==> TipAfter(f, g, b) && g.highest.value.number >= b.number)
  {
    hide ForkInv, Run, AtEachStep, MinesOnKnown, HandleNewBlock;
    ForkInvAlwaysIff(o, events);
    ArrivalSetsTip(o, Run(o, events).forks, b);
  }
}
