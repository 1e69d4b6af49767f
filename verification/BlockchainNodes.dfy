/** The node object: genesis creation and the block producer over the mutable parts. */
module BlockchainNodes {
  import opened Types
  import opened Ledger
  import opened ForkChoice
  import opened Canonical
  import opened NodeRuns
  import opened Storages
  import opened Execution
  import opened ForkManagement
  import opened Canonicalisation

  class BlockchainNode {
    const mempool: Mempool
    const forkManager: ForkManager
    const canonicaliser: ChainCanonicaliser
    var coinbase: bytes
    /** The blocks gossiped as "bc:new_block". */
    var announced: seq<Block>

    ghost predicate Valid()
      reads this, mempool, forkManager, forkManager.blockStorage
    {
      canonicaliser.forkManager == forkManager && canonicaliser.Valid() && mempool.Valid()
    }

    ghost function Parts(): set<object> {
      canonicaliser.Footprint() + {mempool, forkManager, forkManager.blockStorage}
    }

    /** The node as a value; between two steps of the producer's thread nothing is being mined. */
    ghost function Value(): Node
      reads Parts()
    {
      Node(forkManager.Value(), canonicaliser.Value(), mempool.transactions, None)
    }

    constructor Of(forkManager: ForkManager, canonicaliser: ChainCanonicaliser, mempool: Mempool)
      ensures this.forkManager == forkManager && this.canonicaliser == canonicaliser && this.mempool == mempool
      ensures announced == [] && coinbase == Zeros(33)
    {
      this.forkManager, this.canonicaliser, this.mempool := forkManager, canonicaliser, mempool;
      coinbase, announced := Zeros(33), [];
    }

    static method CreateGenesis(blocknumStorage: NumberStorage, blockStorage: Storage<Hash, Block>,
                                blockstateStorage: Storage<int, State>)
      requires (blocknumStorage.hashes as object) != blockstateStorage
      requires (blockStorage as object) != blockstateStorage && (blockStorage as object) != blocknumStorage.hashes
      modifies blocknumStorage, blocknumStorage.hashes, blockStorage, blockstateStorage
      ensures var genesis := Block(0, 0, Raw(seq(32, _ => 0)), seq(33, _ => 0), []);
              && blockStorage.content == old(blockStorage.content)[Digest(genesis) := genesis]
              && blocknumStorage.hashes.content == old(blocknumStorage.hashes.content)[0 := Digest(genesis)]
              && blocknumStorage.latest == Some(0)
              && blockstateStorage.content
                 == old(blockstateStorage.content)[0 := State(0, Digest(genesis), map[], map[])]
      ensures GENESIS == Block(0, 0, Raw(seq(32, _ => 0)), seq(33, _ => 0), [])
    {
      assert Zeros(32) == seq(32, _ => 0) && Zeros(33) == seq(33, _ => 0);
      blockStorage.Save(Digest(GENESIS), GENESIS);
      blocknumStorage.hashes.Save(0, Digest(GENESIS));
      blocknumStorage.SaveLatest(0);
      blockstateStorage.Save(0, GENESIS_STATE);
    }

    /** On empty storages the result is a fresh node, which the run theorems start from. On storages with a latest entry
        nothing is written, and the result is any node that left these storages, restarted. */
    static method Create(o: Oracle, blocknumStorage: NumberStorage, blockStorage: Storage<Hash, Block>,
                         blockstateStorage: Storage<int, State>)
      returns (r: Result<BlockchainNode>)
      requires (blocknumStorage.hashes as object) != blockstateStorage
      requires (blockStorage as object) != blockstateStorage && (blockStorage as object) != blocknumStorage.hashes
      requires Keyed(blockStorage.content)
      modifies blocknumStorage, blocknumStorage.hashes, blockStorage, blockstateStorage
      ensures old(blocknumStorage.latest).Some? ==>
                && blockStorage.content == old(blockStorage.content)
                && blocknumStorage.latest == old(blocknumStorage.latest)
                && blocknumStorage.hashes.content == old(blocknumStorage.hashes.content)
                && blockstateStorage.content == old(blockstateStorage.content)
      ensures old(blocknumStorage.latest) == None ==>
                && blockStorage.content == old(blockStorage.content)[Digest(GENESIS) := GENESIS]
                && blocknumStorage.latest == Some(0)
                && blocknumStorage.hashes.content == old(blocknumStorage.hashes.content)[0 := Digest(GENESIS)]
                && blockstateStorage.content == old(blockstateStorage.content)[0 := GENESIS_STATE]
      ensures if blocknumStorage.latest.GetOr(0) in blocknumStorage.hashes.content then r.Ok?
              else r == Err(LatestNotFound)
      ensures r.Ok? ==> r.value.Valid() && r.value.forkManager.oracle == o
      ensures forall n: Node ::
                && r.Ok?
                && n.forks.blocks == blockStorage.content
                && n.index.nums == blocknumStorage.hashes.content && n.index.latest == blocknumStorage.latest
                && n.index.states == blockstateStorage.content ==>
                  r.value.Value() == RestartStep(n)
      ensures old(blocknumStorage.latest == None && blocknumStorage.hashes.content == map[]
                  && blockStorage.content == map[] && blockstateStorage.content == map[]) ==>
                r.Ok? && r.value.Value() == FRESH
    {
      if blocknumStorage.latest == None {
        CreateGenesis(blocknumStorage, blockStorage, blockstateStorage);
      }
      var pool := new Mempool();
      var forks := new ForkManager(o, blockStorage);
      var index := ChainCanonicaliser.Create(forks, blocknumStorage, blockstateStorage);
      if index.Err? {
        return Err(index.error);
      }
      var node := new BlockchainNode.Of(forks, index.value, pool);
      return Ok(node);
    }

    /** The template's `k`-th nonce meets the difficulty. */
    predicate MeetsAt(template: Block, k: int) {
      forkManager.oracle.meets(Digest(template.(nonce := template.nonce + k)))
    }

    /** The nonce loop finds a block at its `k`-th try: the first nonce that meets the difficulty, with no change of
        the tip seen before it. */
    predicate Wins(template: Block, tipChanged: seq<bool>, k: nat) {
      && k < |tipChanged| && MeetsAt(template, k)
      && forall j :: 0 <= j < k ==> !MeetsAt(template, j) && !tipChanged[j]
    }

    lemma WinsOnce(template: Block, tipChanged: seq<bool>, k: nat, l: nat)
      requires Wins(template, tipChanged, k) && Wins(template, tipChanged, l)
      ensures k == l
    {
    }

    /** The nonce loop. `tipChanged` is what the loop sees after each failed nonce; when the list ends the loop
        is still running, which is reported like an abort. */
    method Mine(template: Block, tipChanged: seq<bool>) returns (r: Option<Block>)
      ensures forall k: nat :: Wins(template, tipChanged, k) ==> r == Some(template.(nonce := template.nonce + k))
      ensures r.Some? ==> exists k: nat :: Wins(template, tipChanged, k)
    {
      var block := template;
      for i := 0 to |tipChanged|
        invariant block == template.(nonce := template.nonce + i)
        invariant forall j :: 0 <= j < i ==> !MeetsAt(template, j) && !tipChanged[j]
      {
        assert MeetsAt(template, i) <==> forkManager.oracle.meets(Digest(block));
        if forkManager.oracle.meets(Digest(block)) {
          assert Wins(template, tipChanged, i);
          forall l: nat | Wins(template, tipChanged, l) ensures l == i {
            WinsOnce(template, tipChanged, i, l);
          }
          return Some(block);
        }
        block := block.(nonce := block.nonce + 1);
        if tipChanged[i] {
          assert forall l: nat :: Wins(template, tipChanged, l) ==> MeetsAt(template, l) && l < i;
          return None;
        }
      }
      return None;
    }

    /** The part of a round before the nonce loop: update, state, and the block to mine. */
    method PrepareBlock() returns (r: Result<Block>)
      requires Valid()
      modifies canonicaliser.Footprint() - {forkManager, forkManager.blockStorage, mempool}, mempool`transactions
      ensures Valid()
      ensures var started := StartMiningStep(forkManager.oracle, old(Value()), coinbase);
              && Value() == started.(candidate := None)
              && (r.Ok? <==> started.candidate.Some?)
              && (r.Ok? ==> r.value == started.candidate.value && r.value.nonce == 0)
    {
      hide Canonical.UpdateCanonical, Select, IndexInv, Holds, Keyed;
      var failed := canonicaliser.UpdateCanonical();
      if failed.Some? {
        return Err(failed.value);
      }
      var state := canonicaliser.GetLatestState();
      if state.Err? {
        return Err(state.error);
      }
      r := Blockchain.BuildBlock(forkManager.oracle, state.value, coinbase, mempool);
    }

    /** One round up to the mined block, with the node left as the first mining step leaves it. */
    method ProduceBlock(tipChanged: seq<bool>) returns (r: Result<Option<Block>>)
      requires Valid()
      modifies canonicaliser.Footprint() - {forkManager, forkManager.blockStorage, mempool}, mempool`transactions
      ensures Valid()
      ensures var started := StartMiningStep(forkManager.oracle, old(Value()), coinbase);
              && Value() == started.(candidate := None)
              && (r.Ok? <==> started.candidate.Some?)
              && (r.Ok? && r.value.Some? ==> exists k: nat :: Wins(started.candidate.value, tipChanged, k))
              && (forall k: nat :: r.Ok? && Wins(started.candidate.value, tipChanged, k) ==>
                    r.value == Some(started.candidate.value.(nonce := k)))
    {
      hide StartMiningStep, Keyed;
      var prepared := PrepareBlock();
      if prepared.Err? {
        return Err(prepared.error);
      }
      var mined := Mine(prepared.value, tipChanged);
      return Ok(mined);
    }

    /** A whole round of the producer. Without a candidate it raises. With one, either the nonce loop finds no block
        and nothing more happens, or the block it finds is confirmed, and announced exactly when confirming does not
        raise. */
    method BlockProducer(tipChanged: seq<bool>) returns (raised: Option<Error>)
      requires Valid()
      modifies this`announced, Parts() - {mempool}, mempool`transactions
      ensures Valid()
      ensures var o, started := forkManager.oracle, StartMiningStep(forkManager.oracle, old(Value()), old(coinbase));
              && (started.candidate.None? ==>
                    raised.Some? && Value() == started && announced == old(announced))
              && (started.candidate.Some? && !(exists k: nat :: Wins(started.candidate.value, tipChanged, k)) ==>
                    raised == None && Value() == started.(candidate := None) && announced == old(announced))
              && (forall k: nat :: started.candidate.Some? && Wins(started.candidate.value, tipChanged, k) ==>
                    var b := started.candidate.value.(nonce := k);
                    && raised == ForkChoice.ConfirmBlockAndAncestors(started.forks, b).error
                    && Value() == MinedStep(o, started, k)
                    && announced == if raised == None then old(announced) + [b] else old(announced))
    {
      hide ForkChoice.ConfirmBlockAndAncestors, ForkInv, Canonical.UpdateCanonical, Select;
      ghost var o, start, miner := forkManager.oracle, Value(), coinbase;
      ghost var started := StartMiningStep(o, start, miner);
      MiningKeepsForks(o, start, miner);
      var produced := ProduceBlock(tipChanged);
      if produced.Err? {
        return Some(produced.error);
      }
      CandidateHasNonceZero(o, start, miner);
      if produced.value.None? {
        return None;
      }
      var block := produced.value.value;
      ghost var k: nat :| Wins(started.candidate.value, tipChanged, k);
      assert forall l: nat :: Wins(started.candidate.value, tipChanged, l) ==> l == k;
      raised := forkManager.ProduceBlock(block);
      if raised.None? {
        announced := announced + [block];
      }
    }
  }

  lemma CandidateHasNonceZero(o: Oracle, n: Node, coinbase: bytes)
    requires Wf(n.forks) && StartMiningStep(o, n, coinbase).candidate.Some?
    ensures StartMiningStep(o, n, coinbase).candidate.value.nonce == 0
  {
    hide Canonical.UpdateCanonical, Select;
  }
}
