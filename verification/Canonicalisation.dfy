/** The canonicaliser in place: the walks and the re-application loop over the three storages. */
module Canonicalisation {
  import opened Types
  import opened Ledger
  import opened ForkChoice
  import opened Canonical
  import opened ForkPoint
  import opened Reorganisation
  import opened Storages
  import opened Execution
  import opened ForkManagement

  /** The number storage: hashes under their numbers, and the entry "latest". */
  class NumberStorage {
    const hashes: Storage<int, Hash>
    var latest: Option<int>

    constructor ()
      ensures fresh(hashes) && hashes.content == map[] && latest == None
    {
      hashes := new Storage();
      latest := None;
    }

    method SaveLatest(number: int)
      modifies this
      ensures latest == Some(number)
    {
      latest := Some(number);
    }
  }

  class ChainCanonicaliser {
    const forkManager: ForkManager
    const blocknumStorage: NumberStorage
    const blockstateStorage: Storage<int, State>
    var latestNum: int
    var latestHash: Hash

    ghost function Value(): Index
      reads this, blocknumStorage, blocknumStorage.hashes, blockstateStorage
    {
      Index(blocknumStorage.hashes.content, blocknumStorage.latest, blockstateStorage.content, latestNum, latestHash)
    }

    ghost function Footprint(): set<object> {
      {this, blocknumStorage, blocknumStorage.hashes, blockstateStorage}
    }

    /** No storage plays two roles. */
    ghost predicate Separate() {
      && (blocknumStorage.hashes as object) != blockstateStorage
      && (forkManager.blockStorage as object) != blockstateStorage
      && (forkManager.blockStorage as object) != blocknumStorage.hashes
    }

    ghost predicate Valid()
      reads forkManager, forkManager.blockStorage
    {
      Separate() && forkManager.Valid()
    }

    constructor Cached(forkManager: ForkManager, blocknumStorage: NumberStorage,
                       blockstateStorage: Storage<int, State>, latestNum: int, latestHash: Hash)
      ensures this.forkManager == forkManager
      ensures this.blocknumStorage == blocknumStorage && this.blockstateStorage == blockstateStorage
      ensures this.latestNum == latestNum && this.latestHash == latestHash
    {
      this.forkManager := forkManager;
      this.blocknumStorage, this.blockstateStorage := blocknumStorage, blockstateStorage;
      this.latestNum, this.latestHash := latestNum, latestHash;
    }

    /** Construction caches the stored latest block and raises when there is none. */
    static method Create(forkManager: ForkManager, blocknumStorage: NumberStorage,
                         blockstateStorage: Storage<int, State>)
      returns (r: Result<ChainCanonicaliser>)
      ensures var nums := blocknumStorage.hashes.content;
              var num := blocknumStorage.latest.GetOr(0);
              match r
              case Err(e) => e == LatestNotFound && num !in nums
              case Ok(c) =>
                && fresh(c) && num in nums
                && c.forkManager == forkManager && c.blocknumStorage == blocknumStorage
                && c.blockstateStorage == blockstateStorage
                && c.Value() == Index(nums, blocknumStorage.latest, blockstateStorage.content, num, nums[num])
    {
      var num := blocknumStorage.latest.GetOr(0);
      var hash := blocknumStorage.hashes.Load(num);
      if hash.None? {
        return Err(LatestNotFound);
      }
      var c := new ChainCanonicaliser.Cached(forkManager, blocknumStorage, blockstateStorage, num, hash.value);
      return Ok(c);
    }

    method GetLatestNum() returns (r: int)
      ensures r == LatestNum(Value()) == blocknumStorage.latest.GetOr(0)
    {
      r := if blocknumStorage.latest.None? then 0 else blocknumStorage.latest.value;
    }

    method GetLatestHash() returns (r: Result<Hash>)
      ensures r == LatestHash(Value())
    {
      var num := GetLatestNum();
      var hash := blocknumStorage.hashes.Load(num);
      match hash {
        case None => return Err(LatestNotFound);
        case Some(h) => return Ok(h);
      }
    }

    method GetBlockByHash(hash: Hash) returns (r: Result<Block>)
      ensures r == BlockByHash(forkManager.blockStorage.content, hash)
    {
      var data := forkManager.blockStorage.Load(hash);
      match data {
        case None => return Err(BlockNotFound);
        case Some(b) => return Ok(b);
      }
    }

    /** The fork point and the branch above it: the two backward walks. */
    method FindForkPoint(start: Block) returns (r: Result<(Block, seq<Block>)>)
      requires Valid() && forkManager.highest == Some(start)
      ensures r == CurrentAndFork(forkManager.Value(), Value())
    {
      ghost var f := forkManager.Value();
      var tip := start;
      var hash := GetLatestHash();
      if hash.Err? {
        return Err(hash.error);
      }
      var latest := GetBlockByHash(hash.value);
      if latest.Err? {
        return Err(latest.error);
      }
      var cur := latest.value;
      var todo := [];
      while tip.number > cur.number
        invariant Descend(f, tip, cur.number, todo) == Descend(f, start, cur.number, [])
        decreases tip
      {
        todo := todo + [tip];
        var parent := forkManager.GetParent(tip);
        if parent.Err? {
          return Err(parent.error);
        }
        tip := parent.value;
      }
      ghost var (stop, down) := (tip, todo);
      while Digest(tip) != Digest(cur)
        invariant Meet(f, tip, cur, todo) == Meet(f, stop, latest.value, down)
        decreases tip
      {
        todo := todo + [tip];
        var parent := forkManager.GetParent(tip);
        if parent.Err? {
          return Err(parent.error);
        }
        var below := GetBlockByHash(cur.parentHash);
        if below.Err? {
          return Err(below.error);
        }
        tip, cur := parent.value, below.value;
      }
      return Ok((cur, todo));
    }

    /** The re-application loop: newest last, each applied block recorded before the next is tried. */
    method ApplyBranch(todo: seq<Block>, state: BlockchainState) returns (raised: Option<Error>)
      requires Separate() && (state as object) !in Footprint() + {forkManager, forkManager.blockStorage}
      modifies Footprint() - {forkManager, forkManager.blockStorage}, state
      ensures Outcome(raised, Value()) == ApplyTodo(forkManager.oracle, todo, old(state.Value()), old(Value()))
    {
      hide Ledger.ApplyBlock;
      var o := forkManager.oracle;
      assert todo[..|todo|] == todo;
      for i := |todo| downto 0
        invariant ApplyTodo(o, todo[..i], state.Value(), Value())
                  == ApplyTodo(o, todo, old(state.Value()), old(Value()))
      {
        var block := todo[i];
        assert todo[..i + 1][..i] == todo[..i];
        var failed := Blockchain.ApplyBlock(o, block, state);
        if failed.Some? {
          return failed;
        }
        state.SaveToDisk(blockstateStorage);
        blocknumStorage.hashes.Save(block.number, Digest(block));
        blocknumStorage.SaveLatest(block.number);
        latestNum := block.number;
        latestHash := Digest(block);
      }
      return None;
    }

    /** Whatever the node knows, the index still holds a chain afterwards, even when this raises halfway; when it
        returns normally with a highest block, it holds that block's ancestry. One that raises leaves the index as it
        was, or on more of the highest block's line than was shared before. */
    method UpdateCanonical() returns (raised: Option<Error>)
      requires Valid()
      modifies Footprint() - {forkManager, forkManager.blockStorage}
      ensures Outcome(raised, Value())
              == Canonical.UpdateCanonical(forkManager.oracle, forkManager.Value(), old(Value()))
      ensures old(IndexInv(forkManager.oracle, Value())) ==>
                && IndexInv(forkManager.oracle, Value())
                && (raised == None && forkManager.highest.Some? ==>
                      Holds(forkManager.oracle, Value(), Ancestors(forkManager.highest.value)))
      ensures raised.Some? && !IsInvalidBlock(raised.value) ==> Value() == old(Value())
      ensures old(IndexInv(forkManager.oracle, Value())) && raised.Some? ==>
                && forkManager.highest.Some?
                && (|| Value() == old(Value())
                    || (&& CanonicalChain(Value()) <= Ancestors(forkManager.highest.value)
                        && |CanonicalChain(Value())|
                           > CommonLength(Ancestors(forkManager.highest.value), old(CanonicalChain(Value())))))
    {
      hide IndexInv, Holds, Ancestors, CurrentAndFork, Keyed, ApplyTodo, CanonicalChain, CommonLength;
      ghost var f, x := forkManager.Value(), Value();
      var o := forkManager.oracle;
      RaisedBeforeSaves(o, f, x);
      if IndexInv(o, x) {
        UpdateCanonicalReplays(o, f, x);
        if f.highest.Some? && Canonical.UpdateCanonical(o, f, x).error.Some? {
          FailedUpdateKeepsChain(o, f, x);
        }
      }
      var tip := forkManager.GetHighestBlock();
      if tip.None? {
        return None;
      }
      var walked := FindForkPoint(tip.value);
      if walked.Err? {
        return Some(walked.error);
      }
      var (base, todo) := walked.value;
      var state := BlockchainState.LoadFromDisk(blockstateStorage, base.number);
      if state.Err? {
        return Some(state.error);
      }
      raised := ApplyBranch(todo, state.value);
    }

    /** Number -1 stands for the cached latest one. */
    method GetBlockByNumber(number: int) returns (r: Result<Block>)
      ensures var n := if number == -1 then latestNum else number;
              r == if n in blocknumStorage.hashes.content
                   then BlockByHash(forkManager.blockStorage.content, blocknumStorage.hashes.content[n])
                   else Err(BlockNotFound)
      ensures IndexInv(forkManager.oracle, Value()) && 0 <= number < |CanonicalChain(Value())| && r.Ok? && Valid() ==>
                r.value == CanonicalChain(Value())[number]
      ensures IndexInv(forkManager.oracle, Value()) && number == -1 && r.Ok? && Valid() ==>
                |CanonicalChain(Value())| >= 1 && r.value == CanonicalChain(Value())[|CanonicalChain(Value())| - 1]
    {
      if IndexInv(forkManager.oracle, Value()) {
        IndexEntry(forkManager.oracle, Value(), if number == -1 then latestNum else number);
      }
      var n := number;
      if n == -1 {
        n := latestNum;
      }
      var hash := blocknumStorage.hashes.Load(n);
      if hash.None? {
        return Err(BlockNotFound);
      }
      r := GetBlockByHash(hash.value);
    }

    method GetStateAt(number: int) returns (r: Result<BlockchainState>)
      ensures match r
              case Ok(s) => fresh(s) && LoadState(Value(), if number == -1 then latestNum else number) == Ok(s.Value())
              case Err(e) => LoadState(Value(), if number == -1 then latestNum else number) == Err(e)
      ensures IndexInv(forkManager.oracle, Value()) && 0 <= number < |CanonicalChain(Value())| ==>
                r.Ok? && Replay(forkManager.oracle, CanonicalChain(Value())[..number + 1]) == Ok(r.value.Value())
      ensures IndexInv(forkManager.oracle, Value()) && number == -1 ==>
                r.Ok? && Replay(forkManager.oracle, CanonicalChain(Value())) == Ok(r.value.Value())
    {
      if IndexInv(forkManager.oracle, Value()) {
        IndexEntry(forkManager.oracle, Value(), if number == -1 then latestNum else number);
      }
      var n := number;
      if n == -1 {
        n := latestNum;
      }
      r := BlockchainState.LoadFromDisk(blockstateStorage, n);
    }

    method GetLatestState() returns (r: Result<BlockchainState>)
      ensures match r
              case Ok(s) => fresh(s) && LoadState(Value(), LatestNum(Value())) == Ok(s.Value())
              case Err(e) => LoadState(Value(), LatestNum(Value())) == Err(e)
    {
      var num := GetLatestNum();
      r := BlockchainState.LoadFromDisk(blockstateStorage, num);
    }
  }
}
