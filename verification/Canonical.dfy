/** Canonicalisation as functions on values: the two backward walks to the fork point and the re-application
    of the new branch over the number index and the state snapshots. The class
    `Canonicalisation.ChainCanonicaliser` is proved against them. */
module Canonical {
  import opened Types
  import opened Ledger
  import opened ForkChoice

  /** The number index (`nums` and the entry `latest`), the state snapshots, and the cached latest block. */
  datatype Index = Index(nums: map<int, Hash>, latest: Option<int>, states: map<int, State>,
                         cachedNum: int, cachedHash: Hash)

  function LatestNum(x: Index): int {
    match x.latest
    case None => 0
    case Some(n) => n
  }

  function LatestHash(x: Index): Result<Hash> {
    if LatestNum(x) in x.nums then Ok(x.nums[LatestNum(x)]) else Err(LatestNotFound)
  }

  function BlockByHash(blocks: map<Hash, Block>, h: Hash): Result<Block> {
    if h in blocks then Ok(blocks[h]) else Err(BlockNotFound)
  }

  function LoadState(x: Index, n: int): Result<State> {
    LoadSnapshot(x.states, n)
  }

  /** The first walk: from the tip down to the number of the latest block. `todo` grows newest first. */
  function Descend(f: Forks, tip: Block, floor: int, todo: seq<Block>): Result<(Block, seq<Block>)>
    requires Wf(f)
    decreases tip
  {
    if tip.number <= floor then Ok((tip, todo)) else
    var p :- GetParent(f, tip);
    Descend(f, p, floor, todo + [tip])
  }

  /** The second walk: both sides step back together until the hashes meet. */
  function Meet(f: Forks, tip: Block, cur: Block, todo: seq<Block>): Result<(Block, seq<Block>)>
    requires Wf(f)
    decreases tip
  {
    if Digest(tip) == Digest(cur) then Ok((cur, todo)) else
    var p :- GetParent(f, tip);
    var c :- BlockByHash(f.blocks, cur.parentHash);
    Meet(f, p, c, todo + [tip])
  }

  /** The fork point and the branch above it, newest first. */
  function FindFork(f: Forks, tip: Block, cur: Block): Result<(Block, seq<Block>)>
    requires Wf(f)
  {
    var (t, todo) :- Descend(f, tip, cur.number, []);
    Meet(f, t, cur, todo)
  }

  /** The three saves and the two cached fields of one loop iteration. */
  function Record(x: Index, b: Block, s: State): Index {
    Index(x.nums[b.number := Digest(b)], Some(b.number), x.states[s.number := s], b.number, Digest(b))
  }

  /** Apply `todo` from its end, recording each block that applies. */
  function ApplyTodo(o: Oracle, todo: seq<Block>, s: State, x: Index): Outcome<Index>
    decreases |todo|
  {
    if todo == [] then Outcome(None, x) else
    var b := todo[|todo| - 1];
    match ApplyBlock(o, b, s)
    case Err(e) => Outcome(Some(e), x)
    case Ok(s') => ApplyTodo(o, todo[..|todo| - 1], s', Record(x, b, s'))
  }

  function UpdateCanonical(o: Oracle, f: Forks, x: Index): Outcome<Index>
    requires Wf(f)
  {
    if f.highest.None? then Outcome(None, x) else
    match CurrentAndFork(f, x)
    case Err(e) => Outcome(Some(e), x)
    case Ok((base, todo)) =>
      match LoadState(x, base.number)
      case Err(e) => Outcome(Some(e), x)
      case Ok(s) => ApplyTodo(o, todo, s, x)
  }

  function CurrentAndFork(f: Forks, x: Index): Result<(Block, seq<Block>)>
    requires Wf(f) && f.highest.Some?
  {
    var h :- LatestHash(x);
    var cur :- BlockByHash(f.blocks, h);
    FindFork(f, f.highest.value, cur)
  }

  // ----- The invariant -----

  /** The index holds exactly `chain`: entry n of the number index is its n-th hash, snapshot n is the replay of
      its first n blocks after genesis, for every n up to latest, and the cached fields agree. */
  ghost predicate Holds(o: Oracle, x: Index, chain: seq<Block>) {
    && Replay(o, chain).Ok?
    && x.latest == Some(|chain| - 1)
    && x.cachedNum == |chain| - 1
    && x.cachedHash == Digest(chain[|chain| - 1])
    && forall n :: 0 <= n < |chain| ==> HoldsAt(o, x, chain, n)
  }

  ghost predicate HoldsAt(o: Oracle, x: Index, chain: seq<Block>, n: int)
    requires 0 <= n < |chain|
  {
    && n in x.nums && x.nums[n] == Digest(chain[n])
    && n in x.states && Ok(x.states[n]) == Replay(o, chain[..n + 1])
  }

  /** The chain the index holds, read off its latest hash. */
  function CanonicalChain(x: Index): seq<Block> {
    match LatestHash(x)
    case Ok(Digest(b)) => Ancestors(b)
    case _ => []
  }

  ghost predicate IndexInv(o: Oracle, x: Index) {
    Holds(o, x, CanonicalChain(x))
  }

  lemma HoldsIsCanonical(o: Oracle, x: Index, chain: seq<Block>)
    requires Holds(o, x, chain)
    ensures CanonicalChain(x) == chain
  {
    ReplayShape(o, chain);
    assert HoldsAt(o, x, chain, |chain| - 1);
  }

  function Reversed(s: seq<Block>): (r: seq<Block>)
    ensures |r| == |s|
    ensures forall i :: 0 <= i < |s| ==> r[i] == s[|s| - 1 - i]
  {
    seq(|s|, i requires 0 <= i < |s| => s[|s| - 1 - i])
  }

  /** What the index answers for a number up to latest. */
  lemma IndexEntry(o: Oracle, x: Index, n: int)
    requires IndexInv(o, x)
    ensures var chain := CanonicalChain(x);
            && |chain| >= 1 && x.cachedNum == |chain| - 1 && chain[..|chain|] == chain
            && (0 <= n < |chain| ==>
                  && n in x.nums && x.nums[n] == Digest(chain[n])
                  && LoadState(x, n) == Replay(o, chain[..n + 1]) && Replay(o, chain[..n + 1]).Ok?)
  {
    var chain := CanonicalChain(x);
    ReplayShape(o, chain);
    if 0 <= n < |chain| {
      assert HoldsAt(o, x, chain, n);
      ReplayPrefix(o, chain, n + 1);
      ReplayShape(o, chain[..n + 1]);
    }
  }

  /** The snapshot at latest is the replay of the whole canonical chain. */
  lemma LatestState(o: Oracle, x: Index)
    requires IndexInv(o, x)
    ensures var chain := CanonicalChain(x);
            && |chain| >= 1 && Replay(o, chain).Ok?
            && LoadState(x, LatestNum(x)) == Replay(o, chain)
            && Replay(o, chain).value.hash == Digest(chain[|chain| - 1]) == x.cachedHash
            && Replay(o, chain).value.number == |chain| - 1
            && LatestNum(x) == x.cachedNum == |chain| - 1 && LatestHash(x) == Ok(x.cachedHash)
  {
    var chain := CanonicalChain(x);
    ReplayShape(o, chain);
    assert HoldsAt(o, x, chain, |chain| - 1);
    assert chain[..|chain|] == chain;
  }

  // ----- The walks -----

  lemma ReversedFirst(todo: seq<Block>, all: seq<Block>, b: Block)
    requires |todo| < |all| && all[..|todo| + 1] == todo + [b]
    ensures all[..|todo|] == todo
    ensures Reversed(all[|todo|..]) == Reversed(all[|todo| + 1..]) + [b]
  {
    assert all[|todo|] == (todo + [b])[|todo|];
    assert all[..|todo|] == all[..|todo| + 1][..|todo|];
  }

  lemma {:induction false} DescendPath(f: Forks, tip: Block, floor: int, todo: seq<Block>)
    requires Wf(f) && Descend(f, tip, floor, todo).Ok?
    ensures var (t, all) := Descend(f, tip, floor, todo).value;
            && |todo| <= |all| && all[..|todo|] == todo
            && Ancestors(tip) == Ancestors(t) + Reversed(all[|todo|..])
    decreases tip
  {
    if tip.number > floor {
      var p := GetParent(f, tip).value;
      DescendPath(f, p, floor, todo + [tip]);
      ReversedFirst(todo, Descend(f, tip, floor, todo).value.1, tip);
    }
  }

  /** Where the second walk stops is an ancestor of both sides. */
  lemma {:induction false} MeetPath(f: Forks, tip: Block, cur: Block, todo: seq<Block>)
    requires Wf(f) && Meet(f, tip, cur, todo).Ok?
    ensures var (base, all) := Meet(f, tip, cur, todo).value;
            && |todo| <= |all| && all[..|todo|] == todo
            && Ancestors(tip) == Ancestors(base) + Reversed(all[|todo|..])
            && Ancestors(base) <= Ancestors(cur)
            && (|all| == |todo| ==> base == cur == tip)
    decreases tip
  {
    if Digest(tip) != Digest(cur) {
      var p := GetParent(f, tip).value;
      var c := BlockByHash(f.blocks, cur.parentHash).value;
      MeetPath(f, p, c, todo + [tip]);
      ReversedFirst(todo, Meet(f, tip, cur, todo).value.1, tip);
      assert Ancestors(cur) == Ancestors(c) + [cur];
    }
  }

  /** The walks return a common ancestor of the tip and the canonical head, and exactly the blocks above
      it on the tip's side. */
  lemma FindForkPath(f: Forks, tip: Block, cur: Block)
    requires Wf(f) && FindFork(f, tip, cur).Ok?
    ensures var (base, todo) := FindFork(f, tip, cur).value;
            && Ancestors(base) <= Ancestors(cur)
            && Ancestors(tip) == Ancestors(base) + Reversed(todo)
  {
    hide Descend, Meet, Ancestors, Reversed;
    DescendPath(f, tip, cur.number, []);
    var (t, todo) := Descend(f, tip, cur.number, []).value;
    MeetPath(f, t, cur, todo);
    var (base, all) := Meet(f, t, cur, todo).value;
    ReversedSplit(all, |todo|);
    assert todo[0..] == todo;
  }

  lemma ReversedSplit(all: seq<Block>, k: nat)
    requires k <= |all|
    ensures Reversed(all) == Reversed(all[k..]) + Reversed(all[..k])
  {
  }

  // ----- Applying the new branch -----

  lemma ReversedLast(chain: seq<Block>, todo: seq<Block>)
    requires todo != []
    ensures chain + Reversed(todo) == chain + [todo[|todo| - 1]] + Reversed(todo[..|todo| - 1])
  {
  }

  lemma ReplayOneMore(o: Oracle, chain: seq<Block>, b: Block)
    requires Replay(o, chain).Ok? && ApplyBlock(o, b, Replay(o, chain).value).Ok?
    ensures |chain| >= 1 && Replay(o, chain + [b]) == ApplyBlock(o, b, Replay(o, chain).value)
    ensures b.number == |chain| && Replay(o, chain + [b]).value.number == |chain|
  {
    ReplayShape(o, chain);
    assert (chain + [b])[..|chain|] == chain;
  }

  lemma RecordHolds(o: Oracle, x: Index, chain: seq<Block>, before: seq<Block>, b: Block)
    requires Holds(o, x, before) && chain <= before && |chain| >= 1
    requires Replay(o, chain).Ok? && ApplyBlock(o, b, Replay(o, chain).value).Ok?
    ensures Replay(o, chain + [b]) == ApplyBlock(o, b, Replay(o, chain).value)
    ensures Holds(o, Record(x, b, ApplyBlock(o, b, Replay(o, chain).value).value), chain + [b])
  {
    hide Replay, ApplyBlock;
    ReplayOneMore(o, chain, b);
    var x' := Record(x, b, Replay(o, chain + [b]).value);
    var longer := chain + [b];
    forall n | 0 <= n < |longer| ensures HoldsAt(o, x', longer, n) {
      if n < |chain| {
        assert HoldsAt(o, x, before, n);
        assert longer[..n + 1] == before[..n + 1];
      } else {
        assert longer[..n + 1] == longer;
      }
    }
  }

  /** Re-applying a branch from any point of the held chain leaves the index holding some chain again, however
      far it gets; without an exception it holds the branch in full. */
  lemma {:induction false} ApplyTodoHolds(o: Oracle, todo: seq<Block>, x: Index, chain: seq<Block>, before: seq<Block>)
    returns (now: seq<Block>)
    requires Holds(o, x, before) && chain <= before && |chain| >= 1
    requires Replay(o, chain).Ok?
    requires todo == [] ==> chain == before
    ensures var r := ApplyTodo(o, todo, Replay(o, chain).value, x);
            && Holds(o, r.state, now)
            && (r.error.None? ==> now == chain + Reversed(todo))
            && (r.error.Some? ==> now == before || (chain < now && now <= chain + Reversed(todo)))
    decreases |todo|
  {
    hide Holds, Record, ApplyBlock, Replay, Reversed;
    now := before;
    if todo != [] {
      var b, rest := todo[|todo| - 1], todo[..|todo| - 1];
      var s := Replay(o, chain).value;
      if ApplyBlock(o, b, s).Ok? {
        RecordHolds(o, x, chain, before, b);
        var s' := ApplyBlock(o, b, s).value;
        var longer := chain + [b];
        now := ApplyTodoHolds(o, rest, Record(x, b, s'), longer, longer);
        ReversedLast(chain, todo);
      }
    }
  }

  /** From an index that holds a chain, a pair of walks that succeeds leaves the re-application starting from a
      snapshot that is the replay of a shared prefix. */
  lemma UpdateIsApply(o: Oracle, f: Forks, x: Index, base: Block, todo: seq<Block>)
    requires Wf(f) && IndexInv(o, x) && f.highest.Some?
    requires CurrentAndFork(f, x) == Ok((base, todo))
    ensures var shared := Ancestors(base);
            && shared <= CanonicalChain(x) && Replay(o, shared).Ok?
            && (todo == [] ==> shared == CanonicalChain(x))
            && Ancestors(f.highest.value) == shared + Reversed(todo)
            && UpdateCanonical(o, f, x) == ApplyTodo(o, todo, Replay(o, shared).value, x)
  {
    hide FindFork, Reversed, Linked, Replay, Ancestors, CurrentAndFork;
    var tip := f.highest.value;
    var chain := CanonicalChain(x);
    HeadOfIndex(o, f, x);
    var cur := chain[|chain| - 1];
    FindForkPath(f, tip, cur);
    var shared := Ancestors(base);
    assert chain[..|shared|] == shared;
    ReplayPrefix(o, chain, |shared|);
    ReplayShape(o, shared);
    assert HoldsAt(o, x, chain, base.number);
    if todo == [] {
      EmptyTodo(f, tip, cur);
    }
  }

  /** The walks start from the end of the chain the index holds. */
  lemma HeadOfIndex(o: Oracle, f: Forks, x: Index)
    requires Wf(f) && IndexInv(o, x) && f.highest.Some? && CurrentAndFork(f, x).Ok?
    ensures var chain := CanonicalChain(x);
            && |chain| >= 1
            && Ancestors(chain[|chain| - 1]) == chain
            && CurrentAndFork(f, x) == FindFork(f, f.highest.value, chain[|chain| - 1])
  {
    hide FindFork;
    var chain := CanonicalChain(x);
    ReplayShape(o, chain);
    assert HoldsAt(o, x, chain, |chain| - 1);
  }

  /** Reorganisation is replay. Whatever was canonical before and whatever blocks are known, `update_canonical`
      leaves an index that holds a chain, even when it raises halfway; when it returns normally with a
      tip, that chain is the tip's whole ancestry. */
  lemma UpdateCanonicalReplays(o: Oracle, f: Forks, x: Index)
    requires Wf(f) && IndexInv(o, x)
    ensures var r := UpdateCanonical(o, f, x);
            && IndexInv(o, r.state)
            && (r.error.None? && f.highest.Some? ==> Holds(o, r.state, Ancestors(f.highest.value)))
            && (f.highest.None? ==> r == Outcome(None, x))
  {
    if f.highest.Some? && CurrentAndFork(f, x).Ok? {
      var (base, todo) := CurrentAndFork(f, x).value;
      UpdateIsApply(o, f, x, base, todo);
      var now := ApplyTodoHolds(o, todo, x, Ancestors(base), CanonicalChain(x));
      HoldsIsCanonical(o, UpdateCanonical(o, f, x).state, now);
    }
  }

  lemma EmptyTodo(f: Forks, tip: Block, cur: Block)
    requires Wf(f) && FindFork(f, tip, cur).Ok? && FindFork(f, tip, cur).value.1 == []
    ensures FindFork(f, tip, cur).value.0 == cur
  {
    var (t, todo) := Descend(f, tip, cur.number, []).value;
    MeetPath(f, t, cur, todo);
  }

  lemma SameChainSameIndex(o: Oracle, x: Index, y: Index, chain: seq<Block>)
    requires Holds(o, x, chain) && Holds(o, y, chain)
    ensures x.latest == y.latest == Some(|chain| - 1)
    ensures forall n :: 0 <= n <= x.latest.value ==>
              && n in x.nums && n in y.nums && x.nums[n] == y.nums[n]
              && n in x.states && n in y.states && x.states[n] == y.states[n]
  {
    forall n | 0 <= n <= x.latest.value
      ensures n in x.nums && n in y.nums && x.nums[n] == y.nums[n]
      ensures n in x.states && n in y.states && x.states[n] == y.states[n] {
      assert HoldsAt(o, x, chain, n) && HoldsAt(o, y, chain, n);
    }
  }

  /** Two nodes that both canonicalised the same tip hold the same hashes and the same states, whatever order
      their blocks arrived in. */
  lemma SameTipSameChain(o: Oracle, f: Forks, x: Index, g: Forks, y: Index)
    requires Wf(f) && IndexInv(o, x) && Wf(g) && IndexInv(o, y)
    requires f.highest.Some? && g.highest == f.highest
    requires UpdateCanonical(o, f, x).error.None? && UpdateCanonical(o, g, y).error.None?
    ensures var x', y' := UpdateCanonical(o, f, x).state, UpdateCanonical(o, g, y).state;
            && x'.latest == y'.latest == Some(|Ancestors(f.highest.value)| - 1)
            && forall n :: 0 <= n <= x'.latest.value ==>
                 && n in x'.nums && n in y'.nums && x'.nums[n] == y'.nums[n]
                 && n in x'.states && n in y'.states && x'.states[n] == y'.states[n]
  {
    hide UpdateCanonical, Holds, Ancestors, Wf;
    UpdateCanonicalReplays(o, f, x);
    UpdateCanonicalReplays(o, g, y);
    SameChainSameIndex(o, UpdateCanonical(o, f, x).state, UpdateCanonical(o, g, y).state, Ancestors(f.highest.value));
  }
}
