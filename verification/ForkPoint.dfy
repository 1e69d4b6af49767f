/** Where the two walks end, and when exactly an update returns normally. Between well-numbered stored blocks, with a
    tip no lower than the canonical head, they cannot fail and stop at the highest common ancestor. */
module ForkPoint {
  import opened Types
  import opened Ledger
  import opened ForkChoice
  import opened ForkTheorems
  import opened Canonical

  ghost predicate ChainStored(f: Forks, chain: seq<Block>) {
    forall i :: 0 <= i < |chain| ==> Digest(chain[i]) in f.blocks
  }

  /** `b` is stored, so everything the walks can ask for from `b` downwards is there. */
  ghost predicate Stored(f: Forks, b: Block) {
    WellNumbered(b) && ChainStored(f, Ancestors(b))
  }

  lemma StoredParent(f: Forks, b: Block)
    requires Wf(f) && Stored(f, b) && b.number > 0
    ensures b.parentHash.Digest? && b.number == b.parentHash.block.number + 1
    ensures Stored(f, b.parentHash.block)
    ensures GetParent(f, b) == Ok(b.parentHash.block)
    ensures BlockByHash(f.blocks, b.parentHash) == Ok(b.parentHash.block)
  {
    var p := b.parentHash.block;
    assert Ancestors(b) == Ancestors(p) + [b];
    forall i | 0 <= i < |Ancestors(p)| ensures Digest(Ancestors(p)[i]) in f.blocks {
      assert Ancestors(p)[i] == Ancestors(b)[i];
    }
    var last := |Ancestors(p)| - 1;
    assert Digest(Ancestors(p)[last]) in f.blocks;
  }

  lemma {:induction false} AncestorNumbers(b: Block, x: Block)
    requires WellNumbered(b) && x in Ancestors(b)
    ensures x.number <= b.number && WellNumbered(x)
    ensures x.number == b.number ==> x == b
  {
    WellNumberedPositions(b);
  }

  /** The first walk ends at the tip's ancestor with the floor's number. */
  lemma {:induction false} DescendReaches(f: Forks, tip: Block, floor: nat, todo: seq<Block>)
    requires Wf(f) && Stored(f, tip) && tip.number >= floor
    ensures Descend(f, tip, floor, todo).Ok?
    ensures var t := Descend(f, tip, floor, todo).value.0;
            && Stored(f, t) && t.number == floor
            && (forall x :: x in Ancestors(tip) && x.number <= floor ==> x in Ancestors(t))
    decreases tip
  {
    WellNumberedPositions(tip);
    if tip.number > floor {
      StoredParent(f, tip);
      DescendReaches(f, tip.parentHash.block, floor, todo + [tip]);
    }
  }

  /** The second walk, between two blocks of the same number, ends at their highest common ancestor. */
  lemma {:induction false} MeetReaches(f: Forks, tip: Block, cur: Block, todo: seq<Block>)
    requires Wf(f) && Stored(f, tip) && Stored(f, cur) && tip.number == cur.number
    ensures Meet(f, tip, cur, todo).Ok?
    ensures var base := Meet(f, tip, cur, todo).value.0;
            forall x :: x in Ancestors(tip) && x in Ancestors(cur) ==> x.number <= base.number
    decreases tip
  {
    WellNumberedPositions(tip);
    if tip == cur {
      forall x | x in Ancestors(tip) ensures x.number <= tip.number {
        AncestorNumbers(tip, x);
      }
    } else {
      if tip.number == 0 {
        WellNumberedZero(tip);
        WellNumberedZero(cur);
      }
      StoredParent(f, tip);
      StoredParent(f, cur);
      var p, c := tip.parentHash.block, cur.parentHash.block;
      MeetReaches(f, p, c, todo + [tip]);
      var base := Meet(f, tip, cur, todo).value.0;
      forall x | x in Ancestors(tip) && x in Ancestors(cur) ensures x.number <= base.number {
        AncestorNumbers(tip, x);
        AncestorNumbers(cur, x);
        assert x in Ancestors(p) && x in Ancestors(c);
      }
    }
  }

  /** The walks find the fork: they return normally, at a common ancestor that is the highest one, with `todo`
      reversed being exactly the path from it to the tip. */
  lemma WalksFindHighestCommonAncestor(f: Forks, tip: Block, cur: Block)
    requires Wf(f) && Stored(f, tip) && Stored(f, cur) && tip.number >= cur.number
    ensures FindFork(f, tip, cur).Ok?
    ensures var (base, todo) := FindFork(f, tip, cur).value;
            && base in Ancestors(tip) && base in Ancestors(cur)
            && (forall x :: x in Ancestors(tip) && x in Ancestors(cur) ==> x.number <= base.number)
            && Ancestors(tip) == Ancestors(base) + Reversed(todo)
  {
    WellNumberedPositions(cur);
    DescendReaches(f, tip, cur.number, []);
    var (t, todo) := Descend(f, tip, cur.number, []).value;
    MeetReaches(f, t, cur, todo);
    FindForkPath(f, tip, cur);
    var base := FindFork(f, tip, cur).value.0;
    var k := |Ancestors(base)| - 1;
    assert Ancestors(tip)[k] == base && Ancestors(cur)[k] == base;
    forall x | x in Ancestors(tip) && x in Ancestors(cur) ensures x.number <= base.number {
      AncestorNumbers(cur, x);
      assert x in Ancestors(t);
    }
  }

  // ----- The relation between fork choice and canonical chain that a fresh start establishes -----

  /** The canonical head is stored and no higher than the highest block; until there is a highest block the
      canonical chain is genesis alone. */
  ghost predicate HeadBelowTip(o: Oracle, f: Forks, x: Index) {
    && IndexInv(o, x)
    && (forall i :: 0 <= i < |CanonicalChain(x)| ==>
          WellNumbered(CanonicalChain(x)[i]) && Digest(CanonicalChain(x)[i]) in f.blocks)
    && (match f.highest
        case None => CanonicalChain(x) == [GENESIS]
        case Some(t) => x.latest.value <= t.number)
  }

  /** An exception of `update_canonical` that is not a missing block, parent, state or latest entry. */
  predicate IsInvalidBlock(e: Error) {
    e in {WrongNumber, WrongParent, NoDifficulty, InvalidTransaction, SignatureRaised}
  }

  lemma {:induction false} ApplyTxsErrors(o: Oracle, txs: seq<Transaction>, s: State)
    ensures ApplyTxs(o, txs, s).Err? ==> ApplyTxs(o, txs, s).error in {InvalidTransaction, SignatureRaised}
  {
    if txs != [] && ApplyTx(o, txs[0], s).0.Applied? {
      ApplyTxsErrors(o, txs[1..], ApplyTx(o, txs[0], s).1);
    }
  }

  lemma {:induction false} ApplyTodoErrors(o: Oracle, todo: seq<Block>, s: State, x: Index)
    ensures ApplyTodo(o, todo, s, x).error.Some? ==> IsInvalidBlock(ApplyTodo(o, todo, s, x).error.value)
    decreases |todo|
  {
    if todo != [] {
      var b := todo[|todo| - 1];
      ApplyTxsErrors(o, b.transactions, s);
      if ApplyBlock(o, b, s).Ok? {
        var s' := ApplyBlock(o, b, s).value;
        ApplyTodoErrors(o, todo[..|todo| - 1], s', Record(x, b, s'));
      }
    }
  }

  lemma ForkOfIndex(o: Oracle, f: Forks, x: Index)
    requires StrongInv(f) && HeadBelowTip(o, f, x) && f.highest.Some?
    ensures CurrentAndFork(f, x).Ok?
  {
    var tip := f.highest.value;
    var chain := CanonicalChain(x);
    ReplayShape(o, chain);
    var cur := chain[|chain| - 1];
    assert HoldsAt(o, x, chain, |chain| - 1);
    AncestryStored(f, tip);
    assert Stored(f, cur);
    WalksFindHighestCommonAncestor(f, tip, cur);
  }

  /** When the walks succeed, the update ends on the chain it had or on a prefix of the tip's ancestry, and any
      exception is about an invalid block. */
  lemma UpdateEndsBetween(o: Oracle, f: Forks, x: Index)
    requires Wf(f) && IndexInv(o, x) && f.highest.Some? && CurrentAndFork(f, x).Ok?
    ensures var r := UpdateCanonical(o, f, x);
            && IndexInv(o, r.state)
            && (|| CanonicalChain(r.state) == CanonicalChain(x)
                || CanonicalChain(r.state) <= Ancestors(f.highest.value))
            && (r.error.Some? ==> IsInvalidBlock(r.error.value))
  {
    hide Replay, Descend, Meet, Ancestors, Keyed;
    var (base, todo) := CurrentAndFork(f, x).value;
    var shared := Ancestors(base);
    UpdateIsApply(o, f, x, base, todo);
    ApplyTodoErrors(o, todo, Replay(o, shared).value, x);
    var now := ApplyTodoHolds(o, todo, x, shared, CanonicalChain(x));
    HoldsIsCanonical(o, UpdateCanonical(o, f, x).state, now);
  }

  /** On a fresh run with well-numbered blocks, `update_canonical` raises only when a block of the new branch is
      invalid, and the canonical head stays no higher than the highest block. */
  lemma UpdateCanonicalNeverMissesABlock(o: Oracle, f: Forks, x: Index)
    requires StrongInv(f) && HeadBelowTip(o, f, x)
    ensures var r := UpdateCanonical(o, f, x);
            && HeadBelowTip(o, f, r.state)
            && (r.error.Some? ==> IsInvalidBlock(r.error.value))
  {
    hide Replay, Descend, Meet, Ancestors, HoldsAt, ApplyTodo, CurrentAndFork;
    if f.highest.Some? {
      var tip := f.highest.value;
      ForkOfIndex(o, f, x);
      UpdateEndsBetween(o, f, x);
      AncestryStored(f, tip);
      WellNumberedPositions(tip);
    }
  }

  lemma {:induction false} ApplyTodoCompletes(o: Oracle, todo: seq<Block>, x: Index, chain: seq<Block>)
    requires |chain| >= 1 && Replay(o, chain + Reversed(todo)).Ok?
    ensures Replay(o, chain).Ok?
    ensures ApplyTodo(o, todo, Replay(o, chain).value, x).error.None?
    decreases |todo|
  {
    hide Record, ApplyTxs, Ancestors;
    var full := chain + Reversed(todo);
    ReplayPrefix(o, full, |chain|);
    assert full[..|chain|] == chain;
    if todo != [] {
      var b, rest := todo[|todo| - 1], todo[..|todo| - 1];
      var longer := chain + [b];
      ReversedLast(chain, todo);
      assert longer[..|longer| - 1] == chain;
      ReplayPrefix(o, full, |longer|);
      assert full[..|longer|] == longer;
      ApplyTodoCompletes(o, rest, Record(x, b, ApplyBlock(o, b, Replay(o, chain).value).value), longer);
    }
  }

  lemma HeadBelowTipGrows(o: Oracle, f: Forks, g: Forks, x: Index)
    requires HeadBelowTip(o, f, x) && StrongInv(g) && Grows(f, g)
    ensures HeadBelowTip(o, g, x)
  {
    if f.highest.None? && g.highest.Some? {
      WellNumberedPositions(g.highest.value);
    }
  }

  // ----- The canonical head and the chain below it -----

  /** Closure carries storage down a chain numbered by position, whatever else is stored. */
  lemma {:induction false} StoredDownwards(f: Forks, chain: seq<Block>, k: nat)
    requires ForkInv(f) && Linked(chain) && (forall i :: 0 <= i < |chain| ==> chain[i].number == i)
    requires k < |chain| && Digest(chain[k]) in f.blocks
    ensures ChainStored(f, chain[..k + 1])
  {
    hide FirstHighest;
    if k > 0 {
      assert Digest(chain[k]) == Digest(f.blocks[Digest(chain[k])]);
      StoredDownwards(f, chain, k - 1);
    }
  }

  /** Storing the head is storing the whole canonical chain. */
  lemma HeadStoredIffChainStored(o: Oracle, f: Forks, x: Index)
    requires ForkInv(f) && IndexInv(o, x)
    ensures x.cachedHash in f.blocks <==> ChainStored(f, CanonicalChain(x))
  {
    hide FirstHighest, ClosedBut, Keyed, CanonicalChain, Replay, HoldsAt;
    var chain := CanonicalChain(x);
    var last := |chain| - 1;
    ReplayShape(o, chain);
    if x.cachedHash in f.blocks {
      StoredDownwards(f, chain, last);
      assert chain[..last + 1] == chain;
    }
  }

  // ----- When exactly an update returns normally -----

  /** The second walk ends only between blocks with equally many ancestors. */
  lemma {:induction false} MeetSameLength(f: Forks, tip: Block, cur: Block, todo: seq<Block>)
    requires Wf(f) && Meet(f, tip, cur, todo).Ok?
    ensures |Ancestors(tip)| == |Ancestors(cur)|
    decreases tip
  {
    if Digest(tip) != Digest(cur) {
      MeetSameLength(f, GetParent(f, tip).value, BlockByHash(f.blocks, cur.parentHash).value, todo + [tip]);
    }
  }

  /** Walks that meet start from a tip with at least as many ancestors as the canonical head. */
  lemma WalksNeedHigherTip(f: Forks, tip: Block, cur: Block)
    requires Wf(f) && FindFork(f, tip, cur).Ok?
    ensures |Ancestors(cur)| <= |Ancestors(tip)|
  {
    hide Ancestors, Descend, Meet;
    DescendPath(f, tip, cur.number, []);
    var (t, todo) := Descend(f, tip, cur.number, []).value;
    MeetSameLength(f, t, cur, todo);
  }

  lemma {:induction false} PositionedIsWellNumbered(chain: seq<Block>, k: nat)
    requires k < |chain| && Linked(chain) && chain[0] == GENESIS
    requires forall i :: 0 <= i < |chain| ==> chain[i].number == i
    ensures WellNumbered(chain[k])
  {
    if k > 0 {
      PositionedIsWellNumbered(chain, k - 1);
      assert chain[k].parentHash == Digest(chain[k - 1]);
    }
  }

  /** A stored block whose ancestry replays is well numbered and stored with all of it. */
  lemma ReplayedIsStored(o: Oracle, f: Forks, b: Block)
    requires ForkInv(f) && Digest(b) in f.blocks && Replay(o, Ancestors(b)).Ok?
    ensures Stored(f, b) && b.number == |Ancestors(b)| - 1
  {
    hide FirstHighest, ClosedBut, Keyed, Ancestors, Replay;
    var line := Ancestors(b);
    var last := |line| - 1;
    ReplayShape(o, line);
    PositionedIsWellNumbered(line, last);
    StoredDownwards(f, line, last);
    assert line[..last + 1] == line;
  }

  /** When exactly an update returns normally, whatever blocks arrived and however often the node was restarted: the
      canonical head is stored, the highest block's whole ancestry is a valid chain, and it is no lower than the
      stored latest block. */
  lemma UpdateSucceedsIff(o: Oracle, f: Forks, x: Index)
    requires ForkInv(f) && IndexInv(o, x) && f.highest.Some?
    ensures UpdateCanonical(o, f, x).error.None? <==>
            && x.cachedHash in f.blocks
            && Replay(o, Ancestors(f.highest.value)).Ok?
            && LatestNum(x) <= f.highest.value.number
  {
    hide FirstHighest, ClosedBut, Keyed, UpdateCanonical, Replay, Ancestors, CanonicalChain, FindFork, HoldsAt, Stored;
    var tip := f.highest.value;
    LatestState(o, x);
    if UpdateCanonical(o, f, x).error.None? {
      SuccessNeeds(o, f, x);
    } else if x.cachedHash in f.blocks && Replay(o, Ancestors(tip)).Ok? && LatestNum(x) <= tip.number {
      EnoughToSucceed(o, f, x);
    }
  }

  lemma SuccessNeeds(o: Oracle, f: Forks, x: Index)
    requires ForkInv(f) && IndexInv(o, x) && f.highest.Some? && UpdateCanonical(o, f, x).error.None?
    ensures x.cachedHash in f.blocks
    ensures Replay(o, Ancestors(f.highest.value)).Ok?
    ensures LatestNum(x) <= f.highest.value.number
  {
    UpdateCanonicalReplays(o, f, x);
    LatestState(o, x);
    HeadOfIndex(o, f, x);
    hide FirstHighest, ClosedBut, Keyed, Replay, Ancestors, CanonicalChain, FindFork, HoldsAt, ApplyTodo;
    var tip, chain := f.highest.value, CanonicalChain(x);
    WalksNeedHigherTip(f, tip, chain[|chain| - 1]);
    ReplayShape(o, Ancestors(tip));
  }

  lemma EnoughToSucceed(o: Oracle, f: Forks, x: Index)
    requires ForkInv(f) && IndexInv(o, x) && f.highest.Some?
    requires x.cachedHash in f.blocks && Replay(o, Ancestors(f.highest.value)).Ok?
    requires LatestNum(x) <= f.highest.value.number
    ensures UpdateCanonical(o, f, x).error.None?
  {
    hide FirstHighest, ClosedBut, Keyed, UpdateCanonical, Replay, Ancestors, FindFork, HoldsAt, Stored, ApplyTodo;
    var tip, chain := f.highest.value, CanonicalChain(x);
    LatestState(o, x);
    ReplayShape(o, chain);
    var cur := chain[|chain| - 1];
    ReplayedIsStored(o, f, tip);
    ReplayedIsStored(o, f, cur);
    WalksFindHighestCommonAncestor(f, tip, cur);
    WalksFromHead(o, f, x, cur);
    var (base, todo) := FindFork(f, tip, cur).value;
    UpdateIsApply(o, f, x, base, todo);
    assert |Ancestors(base)| >= 1;
    ApplyTodoCompletes(o, todo, x, Ancestors(base));
  }

  lemma WalksFromHead(o: Oracle, f: Forks, x: Index, cur: Block)
    requires ForkInv(f) && IndexInv(o, x) && f.highest.Some?
    requires x.cachedHash == Digest(cur) && x.cachedHash in f.blocks
    ensures CurrentAndFork(f, x) == FindFork(f, f.highest.value, cur)
  {
    hide FindFork, Holds;
    LatestState(o, x);
  }
}
