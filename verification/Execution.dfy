/** The state transition in place: the mutable state, the mempool, and the methods of `Blockchain`. */
module Execution {
  import opened Types
  import opened Ledger
  import opened Pool
  import opened Storages

  class BlockchainState {
    var blockNumber: int
    var blockHash: Hash
    var balances: map<bytes, int>
    var nonces: map<bytes, int>

    function Value(): State
      reads this
    {
      State(blockNumber, blockHash, balances, nonces)
    }

    constructor Of(s: State)
      ensures Value() == s
    {
      blockNumber, blockHash, balances, nonces := s.number, s.hash, s.balances, s.nonces;
    }

    /** A missing snapshot and one of another number raise. Loading deserialises, so the object shares nothing with the
        snapshot it came from. */
    static method LoadFromDisk(storage: Storage<int, State>, number: int) returns (r: Result<BlockchainState>)
      ensures match r
              case Ok(s) => fresh(s) && LoadSnapshot(storage.content, number) == Ok(s.Value())
              case Err(e) => LoadSnapshot(storage.content, number) == Err(e)
      ensures if number !in storage.content then r == Err(StateNotFound)
              else if storage.content[number].number != number then r == Err(WrongSnapshot)
              else r.Ok? && r.value.Value() == storage.content[number]
    {
      var data := storage.Load(number);
      if data.None? {
        return Err(StateNotFound);
      }
      if data.value.number != number {
        return Err(WrongSnapshot);
      }
      var state := new BlockchainState.Of(data.value);
      return Ok(state);
    }

    /** Saving serialises a copy under the state's own number. */
    method SaveToDisk(storage: Storage<int, State>)
      modifies storage
      ensures storage.content == old(storage.content)[blockNumber := Value()]
    {
      storage.Save(blockNumber, Value());
    }
  }

  class Mempool {
    var transactions: seq<Transaction>
    /** The transactions gossiped as "bc:new_tx". */
    var announced: seq<Transaction>

    ghost predicate Valid()
      reads this
    {
      Distinct(transactions)
    }

    constructor ()
      ensures Valid() && transactions == [] && announced == []
    {
      transactions, announced := [], [];
    }

    method GetTransactions() returns (r: seq<Transaction>)
      ensures r == transactions
    {
      r := transactions;
    }

    /** A node's own transaction. Printing it for the network raises when it is not signed, before anything else
        happens; its signature is not checked. */
    method AnnounceTransaction(tx: Transaction) returns (raised: Option<Error>)
      requires Valid()
      modifies this
      ensures Valid()
      ensures if tx.sig == []
              then raised == Some(NotSigned) && transactions == old(transactions) && announced == old(announced)
              else && raised == None && announced == old(announced) + [tx]
                   && transactions == AddTransaction(old(transactions), tx)
    {
      if tx.sig == [] {
        return Some(NotSigned);
      }
      announced := announced + [tx];
      Add(tx);
      return None;
    }

    /** The gossip handler: the result says whether to pass the transaction on, which is exactly when its signature is
        accepted, and then it is in the mempool. */
    method HandleNewTx(o: Oracle, tx: Transaction) returns (r: Result<bool>)
      requires Valid()
      modifies this`transactions
      ensures Valid()
      ensures match o.signature(tx)
              case Accepts =>
                && r == Ok(true) && tx in transactions
                && transactions == AddTransaction(old(transactions), tx)
              case Refuses => r == Ok(false) && transactions == old(transactions)
              case Raises => r == Err(SignatureRaised) && transactions == old(transactions)
    {
      match o.signature(tx) {
        case Raises => return Err(SignatureRaised);
        case Refuses => return Ok(false);
        case Accepts =>
      }
      Add(tx);
      return Ok(true);
    }

    method Add(tx: Transaction)
      requires Valid()
      modifies this`transactions
      ensures Valid()
      ensures transactions == AddTransaction(old(transactions), tx)
    {
      if tx !in transactions {
        transactions := transactions + [tx];
      }
    }

    /** `dict.pop(key, None)`. */
    method EvictTransaction(tx: Transaction)
      requires Valid()
      modifies this`transactions
      ensures Valid()
      ensures transactions == Evict(old(transactions), [tx])
    {
      EvictKeepsDistinct(transactions, [tx]);
      transactions := Without(transactions, tx);
    }

    static method Without(pool: seq<Transaction>, tx: Transaction) returns (left: seq<Transaction>)
      ensures left == Evict(pool, [tx])
    {
      left := [];
      for i := 0 to |pool|
        invariant left + Evict(pool[i..], [tx]) == Evict(pool, [tx])
      {
        assert pool[i..][0] == pool[i] && pool[i..][1..] == pool[i + 1..];
        if pool[i] != tx {
          assert left + Evict(pool[i..], [tx]) == left + [pool[i]] + Evict(pool[i + 1..], [tx]);
          left := left + [pool[i]];
        }
      }
    }
  }

  class Blockchain {

    static method ApplyTransaction(o: Oracle, tx: Transaction, state: BlockchainState) returns (r: TxOutcome)
      modifies state
      ensures (r, state.Value()) == ApplyTx(o, tx, old(state.Value()))
    {
      match o.signature(tx) {
        case Raises => return Raised;
        case Refuses => return Rejected;
        case Accepts =>
      }
      if tx.amount < 0 {
        return Rejected;
      }
      state.balances := Touch(state.balances, tx.sender);
      state.balances := Touch(state.balances, tx.receiver);
      state.nonces := Touch(state.nonces, tx.sender);
      if state.nonces[tx.sender] != tx.nonce {
        return Rejected;
      }
      if state.balances[tx.sender] < tx.amount {
        return Rejected;
      }
      state.balances := state.balances[tx.sender := state.balances[tx.sender] - tx.amount];
      state.balances := state.balances[tx.receiver := state.balances[tx.receiver] + tx.amount];
      state.nonces := state.nonces[tx.sender := state.nonces[tx.sender] + 1];
      return Applied;
    }

    /** On success the state is the block's successor state. A block refused for its header leaves the state alone; one
        refused for a transaction leaves what the transactions before it did. */
    static method ApplyBlock(o: Oracle, block: Block, state: BlockchainState) returns (raised: Option<Error>)
      modifies state
      ensures match Ledger.ApplyBlock(o, block, old(state.Value()))
              case Ok(s) => raised == None && state.Value() == s
              case Err(e) =>
                && raised == Some(e)
                && state.Value() == if e in {WrongNumber, WrongParent, NoDifficulty} then old(state.Value())
                                    else TxsLeave(o, block.transactions, old(state.Value()))
    {
      if block.number != state.blockNumber + 1 {
        return Some(WrongNumber);
      }
      if block.parentHash != state.blockHash {
        return Some(WrongParent);
      }
      if !o.meets(Digest(block)) {
        return Some(NoDifficulty);
      }
      ghost var start := state.Value();
      for i := 0 to |block.transactions|
        invariant ApplyTxs(o, block.transactions, start) == ApplyTxs(o, block.transactions[i..], state.Value())
        invariant TxsLeave(o, block.transactions, start) == TxsLeave(o, block.transactions[i..], state.Value())
      {
        assert block.transactions[i..][1..] == block.transactions[i + 1..];
        var r := ApplyTransaction(o, block.transactions[i], state);
        match r {
          case Raised => return Some(SignatureRaised);
          case Rejected => return Some(InvalidTransaction);
          case Applied =>
        }
      }
      var reward := Lookup(state.balances, block.coinbase) + BLOCK_REWARD;
      state.balances := state.balances[block.coinbase := reward];
      state.blockNumber := block.number;
      state.blockHash := Digest(block);
      return None;
    }

    /** The first half of the builder's loop body. */
    static method ApplyOrEvict(o: Oracle, tx: Transaction, state: BlockchainState, mempool: Mempool)
      returns (r: TxOutcome)
      requires mempool.Valid()
      modifies state, mempool`transactions
      ensures mempool.Valid()
      ensures (r, state.Value()) == ApplyTx(o, tx, old(state.Value()))
      ensures mempool.transactions
              == if r.Rejected? then Evict(old(mempool.transactions), [tx]) else old(mempool.transactions)
    {
      r := ApplyTransaction(o, tx, state);
      if r.Rejected? {
        mempool.EvictTransaction(tx);
      }
    }

    /** The built block is valid on the state it was built from, whatever nonce it is then mined with. */
    static method BuildBlock(o: Oracle, state: BlockchainState, coinbase: bytes, mempool: Mempool)
      returns (r: Result<Block>)
      requires mempool.Valid()
      modifies state, mempool`transactions
      ensures mempool.Valid()
      ensures var picked := Select(o, old(mempool.transactions), old(state.Value()), MAX_TRANSACTIONS_PER_BLOCK);
              && mempool.transactions == Evict(old(mempool.transactions), picked.evicted)
              && r == if picked.raised then Err(SignatureRaised)
                      else Ok(Template(old(state.Value()), coinbase, picked.chosen))
      ensures r.Ok? ==>
                && r.value.transactions
                   == Select(o, old(mempool.transactions), old(state.Value()), MAX_TRANSACTIONS_PER_BLOCK).chosen
                && |r.value.transactions| <= 10
                && r.value.number == old(state.blockNumber) + 1 && r.value.parentHash == old(state.blockHash)
                && r.value.coinbase == coinbase && r.value.nonce == 0
      ensures forall nonce :: r.Ok? && o.meets(Digest(r.value.(nonce := nonce))) ==>
                Ledger.ApplyBlock(o, r.value.(nonce := nonce), old(state.Value())).Ok?
    {
      hide OnTheWay, ApplyTx, Ledger.ApplyBlock, Select, Evict;
      ghost var start := state.Value();
      var chosen := [];
      var pool := mempool.GetTransactions();
      ghost var evicted := [];
      EvictNothing(pool);
      NotStarted(o, pool, start);
      var block := Block(state.blockNumber + 1, 0, state.blockHash, coinbase, []);
      var i := 0;
      while i < |pool|
        invariant 0 <= i <= |pool| && |chosen| <= MAX_TRANSACTIONS_PER_BLOCK
        invariant mempool.Valid() && mempool.transactions == Evict(pool, evicted)
        invariant OnTheWay(o, pool, start, i, chosen, evicted, state.Value())
        invariant i < |pool| ==> |chosen| < MAX_TRANSACTIONS_PER_BLOCK
      {
        OneMore(o, pool, start, i, chosen, evicted, state.Value());
        var applied := ApplyOrEvict(o, pool[i], state, mempool);
        if applied.Raised? {
          return Err(SignatureRaised);
        } else if applied.Applied? {
          chosen := chosen + [pool[i]];
        } else {
          EvictTwice(pool, evicted, [pool[i]]);
          evicted := evicted + [pool[i]];
        }
        i := i + 1;
        if |chosen| >= MAX_TRANSACTIONS_PER_BLOCK {
          break;
        }
      }
      Finished(o, pool, start, i, chosen, evicted, state.Value());
      r := Ok(block.(transactions := chosen));
      BuiltBlockIsValid(o, start, pool, coinbase);
      BuilderAgreesWithValidator(o, start, pool, coinbase, 0);
    }
  }
}
