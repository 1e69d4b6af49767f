/** The fork manager in place: dictionaries updated step by step, walks as loops. */
module ForkManagement {
  import opened Types
  import opened ForkChoice
  import opened ForkEffects
  import opened Storages

  class ForkManager {
    const oracle: Oracle
    const blockStorage: Storage<Hash, Block>
    var known: map<Hash, Block>
    var confirmed: set<Hash>
    var highest: Option<Block>
    /** The searches `self.search` still has open for this object. */
    var queries: multiset<Query>
    ghost var offered: seq<Block>

    ghost function Value(): Forks
      reads this, blockStorage
    {
      Forks(known, confirmed, blockStorage.content, highest, queries, offered)
    }

    ghost predicate Valid()
      reads this, blockStorage
    {
      Wf(Value())
    }

    constructor (oracle: Oracle, blockStorage: Storage<Hash, Block>)
      ensures this.oracle == oracle && this.blockStorage == blockStorage
      ensures Value() == Forks(map[], {}, blockStorage.content, None, multiset{}, [])
    {
      this.oracle, this.blockStorage := oracle, blockStorage;
      known, confirmed, highest, queries, offered := map[], {}, None, multiset{}, [];
    }

    method GetKnownBlock(hash: Hash) returns (r: Option<Block>)
      ensures r == GetKnown(Value(), hash)
    {
      if hash in known {
        return Some(known[hash]);
      }
      r := blockStorage.Load(hash);
    }

    method GetParent(block: Block) returns (r: Result<Block>)
      ensures r == ForkChoice.GetParent(Value(), block)
    {
      var data := GetKnownBlock(block.parentHash);
      match data {
        case None => return Err(ParentNotFound);
        case Some(p) => return Ok(p);
      }
    }

    method IsConfirmedBlock(hash: Hash) returns (r: bool)
      ensures r <==> IsConfirmed(Value(), hash)
    {
      if hash in confirmed {
        return true;
      }
      r := blockStorage.Exists(hash);
    }

    method IsKnownBlock(hash: Hash) returns (r: bool)
      ensures r <==> IsKnown(Value(), hash)
    {
      if hash in known {
        return true;
      }
      r := IsConfirmedBlock(hash);
    }

    method AddBlock(block: Block)
      modifies this`known
      ensures Value() == ForkChoice.AddBlock(old(Value()), block)
    {
      known := known[Digest(block) := block];
    }

    method ConfirmBlock(block: Block)
      modifies this`confirmed, blockStorage
      ensures Value() == ForkChoice.ConfirmBlock(old(Value()), block)
    {
      confirmed := confirmed + {Digest(block)};
      blockStorage.Save(Digest(block), block);
    }

    method UpdateChainTip(block: Block)
      modifies this`highest, this`offered
      ensures Value() == UpdateTip(old(Value()), block)
    {
      if highest.None? || block.number > highest.value.number {
        highest := Some(block);
      }
      offered := offered + [block];
    }

    method ConfirmBlockAndAncestors(block: Block) returns (raised: Option<Error>)
      requires Valid()
      modifies this, blockStorage
      ensures Valid()
      ensures Outcome(raised, Value()) == ForkChoice.ConfirmBlockAndAncestors(old(Value()), block)
    {
      var cur := block;
      while true
        invariant Valid()
        invariant ConfirmWalk(Value(), cur) == ConfirmWalk(old(Value()), block)
        decreases cur
      {
        var done := IsConfirmedBlock(Digest(cur));
        if done {
          break;
        }
        ConfirmBlock(cur);
        if cur.number == 0 {
          break;
        }
        var parent := GetParent(cur);
        if parent.Err? {
          return Some(parent.error);
        }
        cur := parent.value;
      }
      UpdateChainTip(block);
      return None;
    }

    /** Whatever block it is given, a manager that satisfies the invariant keeps it and nothing raises. */
    method AddBlockAndAncestors(block: Block) returns (raised: Option<Error>)
      requires Valid()
      modifies this, blockStorage
      ensures Valid()
      ensures Outcome(raised, Value()) == ForkChoice.AddBlockAndAncestors(old(Value()), block)
      ensures old(ForkInv(Value())) ==> raised == None && ForkInv(Value())
      ensures old(ForkInv(Value())) && Digest(block) in blockStorage.content ==>
                highest == if old(highest).None? || old(highest).value.number < block.number
                           then Some(block) else old(highest)
      ensures old(ForkInv(Value())) && Digest(block) !in blockStorage.content ==>
                highest == old(highest) && blockStorage.content == old(blockStorage.content)
    {
      if ForkInv(Value()) {
        AddBlockAndAncestorsKeeps(Value(), block);
        ghost var k := AddExact(Value(), block);
      }
      AddBlock(block);
      var cur := block;
      while true
        invariant Valid() && Value() == ForkChoice.AddBlock(old(Value()), block)
        invariant FindGap(Value(), cur) == FindGap(Value(), block)
        decreases cur
      {
        if cur.number == 0 {
          raised := ConfirmBlockAndAncestors(block);
          return;
        }
        var done := IsConfirmedBlock(Digest(cur));
        if done {
          raised := ConfirmBlockAndAncestors(block);
          return;
        }
        var parentKnown := IsKnownBlock(cur.parentHash);
        if !parentKnown {
          break;
        }
        var parent := GetParent(cur);
        if parent.Err? {
          return Some(parent.error);
        }
        cur := parent.value;
      }
      queries := queries + multiset{Query(cur, block)};
      return None;
    }

    /** The gossip handler: the result says whether to pass the block on. */
    method HandleNewBlock(block: Block) returns (accepted: bool, raised: Option<Error>)
      requires Valid()
      modifies this, blockStorage
      ensures Valid()
      ensures Outcome(raised, Value()) == ForkChoice.HandleNewBlock(oracle, old(Value()), block)
      ensures accepted <==> oracle.meets(Digest(block)) && raised == None
      ensures old(ForkInv(Value())) && accepted && Digest(block) in blockStorage.content ==>
                highest == if old(highest).None? || old(highest).value.number < block.number
                           then Some(block) else old(highest)
    {
      if !oracle.meets(Digest(block)) {
        return false, None;
      }
      raised := AddBlockAndAncestors(block);
      accepted := raised == None;
    }

    /** The handler of an open query, with the query's removal by the search when the handler returns True. */
    method HandleAnswer(query: Query, reply: Option<Block>)
      requires Valid()
      modifies this, blockStorage
      ensures Valid()
      ensures Value() == ForkChoice.HandleAnswer(oracle, old(Value()), query, reply)
      ensures old(ForkInv(Value())) && Digest(query.block) in blockStorage.content
              && reply.Some? && query.cur.parentHash == Digest(reply.value)
              && query.cur.number == reply.value.number + 1 && oracle.meets(Digest(reply.value)) ==>
                highest == if old(highest).None? || old(highest).value.number < query.block.number
                           then Some(query.block) else old(highest)
    {
      if ForkInv(Value()) && reply.Some? && query.cur.parentHash == Digest(reply.value)
         && query.cur.number == reply.value.number + 1 && oracle.meets(Digest(reply.value)) {
        AnswerSetsTip(oracle, Value(), query, reply.value);
      }
      if reply.Some? {
        var parent := reply.value;
        if query.cur.parentHash != Digest(parent) {
          return;
        }
        if query.cur.number == parent.number + 1 && oracle.meets(Digest(parent)) {
          AddBlock(parent);
          var raised := AddBlockAndAncestors(query.block);
          if raised.Some? {
            return;
          }
        }
      }
      queries := queries - multiset{query};
    }

    method ProduceBlock(block: Block) returns (raised: Option<Error>)
      requires Valid()
      modifies this, blockStorage
      ensures Valid()
      ensures Outcome(raised, Value()) == ForkChoice.ConfirmBlockAndAncestors(old(Value()), block)
      ensures old(ForkInv(Value())) && block.parentHash in old(blockStorage.content) ==>
                && raised == None && ForkInv(Value()) && Digest(block) in blockStorage.content
                && highest == if old(highest).None? || old(highest).value.number < block.number
                              then Some(block) else old(highest)
    {
      if ForkInv(Value()) && block.parentHash in blockStorage.content {
        ProduceKeeps(Value(), block);
        ProducedSetsTip(Value(), block);
      }
      raised := ConfirmBlockAndAncestors(block);
    }

    method GetHighestBlock() returns (r: Option<Block>)
      ensures r == highest
    {
      r := highest;
    }
  }
}
