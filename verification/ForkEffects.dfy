/** What adding and confirming a block do to the fork manager, exactly: in terms of the block's line of ancestors and of
    what is known and stored, whatever block it is. */
module ForkEffects {
  import opened Types
  import opened ForkChoice

  /** The line hangs on its block at `k`, the first from the end that has number 0 or is stored; above it every
      parent can be loaded. */
  predicate Anchored(f: Forks, line: seq<Block>, k: nat) {
    && k < |line| && (line[k].number == 0 || Digest(line[k]) in f.blocks)
    && forall i :: k < i < |line| ==> Loose(f, line[i]) && ParentKnown(f, line[i])
  }

  /** The line breaks below its block at `k`, whose parent is neither known nor stored. */
  predicate BreaksAt(f: Forks, line: seq<Block>, k: nat) {
    && k < |line| && Loose(f, line[k]) && !ParentKnown(f, line[k])
    && forall i :: k < i < |line| ==> Loose(f, line[i]) && ParentKnown(f, line[i])
  }

  predicate Loose(f: Forks, b: Block) {
    b.number != 0 && Digest(b) !in f.blocks
  }

  lemma AnchoredOneMore(f: Forks, line: seq<Block>, b: Block, k: nat)
    requires k < |line| && Loose(f, b) && ParentKnown(f, b)
    ensures Anchored(f, line, k) ==> Anchored(f, line + [b], k)
    ensures BreaksAt(f, line, k) ==> BreaksAt(f, line + [b], k)
  {
    hide Loose;
    var more := line + [b];
    assert forall i :: 0 <= i < |line| ==> more[i] == line[i];
    assert more[|line|] == b;
  }

  /** The gap search finds whether the line hangs or breaks, and where. */
  lemma {:induction false} FindGapExact(f: Forks, cur: Block) returns (k: nat)
    requires Wf(f) && f.confirmed <= f.blocks.Keys
    ensures FindGap(f, cur).Ok?
    ensures var line := Ancestors(cur);
            match FindGap(f, cur).value
            case None => Anchored(f, line, k)
            case Some(c) => BreaksAt(f, line, k) && c == line[k]
    decreases cur
  {
    var line := Ancestors(cur);
    k := |line| - 1;
    if Loose(f, cur) && IsKnown(f, cur.parentHash) {
      var p := GetParent(f, cur).value;
      k := FindGapExact(f, p);
      assert line == Ancestors(p) + [cur];
      AnchoredOneMore(f, Ancestors(p), cur, k);
    }
  }

  /** The hashes of the blocks from `k` on that are not stored yet. */
  ghost function Unstored(f: Forks, line: seq<Block>, k: nat): set<Hash>
    requires k < |line|
  {
    set b | b in line[k..] && Digest(b) !in f.blocks :: Digest(b)
  }

  lemma AnchoredBelow(f: Forks, below: seq<Block>, cur: Block, k: nat)
    requires Loose(f, cur) && cur !in below && k < |below| && Anchored(f, below + [cur], k)
    ensures Anchored(ConfirmBlock(f, cur), below, k)
  {
    var line := below + [cur];
    assert forall i :: 0 <= i < |below| ==> line[i] == below[i] && below[i] in below;
    assert forall i :: k < i < |below| ==> Loose(f, line[i]);
  }

  lemma UnstoredBelow(f: Forks, below: seq<Block>, cur: Block, k: nat)
    requires Loose(f, cur) && cur !in below && k < |below|
    ensures Unstored(f, below + [cur], k) == Unstored(ConfirmBlock(f, cur), below, k) + {Digest(cur)}
  {
    var line := below + [cur];
    assert line[k..] == below[k..] + [cur];
    assert forall b :: b in below[k..] ==> b in below;
  }

  lemma {:induction false} AncestorIsShorter(b: Block, i: nat)
    requires i < |Ancestors(b)|
    ensures |Ancestors(Ancestors(b)[i])| == i + 1
    decreases b
  {
    if i < |Ancestors(b)| - 1 {
      AncestorIsShorter(b.parentHash.block, i);
    }
  }

  lemma NotItsOwnAncestor(p: Block, cur: Block)
    requires |Ancestors(p)| < |Ancestors(cur)|
    ensures cur !in Ancestors(p)
  {
    forall i | 0 <= i < |Ancestors(p)| ensures Ancestors(p)[i] != cur {
      AncestorIsShorter(p, i);
    }
  }

  /** From a line that hangs the confirming walk stores exactly the blocks above the hook, and the hook, that are not
      stored yet, marks them confirmed, and touches nothing else. */
  lemma {:induction false} ConfirmWalkExact(f: Forks, cur: Block, k: nat)
    requires Wf(f) && f.confirmed <= f.blocks.Keys && Anchored(f, Ancestors(cur), k)
    ensures var r := ConfirmWalk(f, cur);
            var added := Unstored(f, Ancestors(cur), k);
            && r.error == None
            && r.state.confirmed == f.confirmed + added && r.state.blocks.Keys == f.blocks.Keys + added
            && (r.state.known, r.state.highest, r.state.queries, r.state.offered)
               == (f.known, f.highest, f.queries, f.offered)
    decreases cur
  {
    if Loose(f, cur) {
      var p := WalkStep(f, cur, k);
      hide ConfirmWalk, Anchored, Unstored, Ancestors, Keyed;
      NotItsOwnAncestor(p, cur);
      AnchoredBelow(f, Ancestors(p), cur, k);
      UnstoredBelow(f, Ancestors(p), cur, k);
      ConfirmWalkExact(ConfirmBlock(f, cur), p, k);
    } else {
      TopIsHook(f, cur, k);
    }
  }

  lemma WalkStep(f: Forks, cur: Block, k: nat) returns (p: Block)
    requires Wf(f) && f.confirmed <= f.blocks.Keys && Anchored(f, Ancestors(cur), k) && Loose(f, cur)
    ensures cur.parentHash == Digest(p) && Ancestors(cur) == Ancestors(p) + [cur] && k < |Ancestors(p)|
    ensures Wf(ConfirmBlock(f, cur)) && ConfirmWalk(f, cur) == ConfirmWalk(ConfirmBlock(f, cur), p)
  {
    var line := Ancestors(cur);
    assert line[|line| - 1] == cur;
    p := GetParent(f, cur).value;
    assert p == GetParent(ConfirmBlock(f, cur), cur).value;
  }

  lemma TopIsHook(f: Forks, cur: Block, k: nat)
    requires Anchored(f, Ancestors(cur), k) && !Loose(f, cur)
    ensures k == |Ancestors(cur)| - 1
    ensures Unstored(f, Ancestors(cur), k) == if Digest(cur) in f.blocks then {} else {Digest(cur)}
  {
    var line := Ancestors(cur);
    assert line[|line| - 1] == cur;
    assert line[|line| - 1..] == [cur];
  }

  // ----- The tip -----

  /** What `_update_chain_tip` makes of the highest block. */
  predicate TipAfter(f: Forks, g: Forks, b: Block) {
    g.highest == if f.highest.None? || f.highest.value.number < b.number then Some(b) else f.highest
  }

  /** Confirming a block whose line hangs stores the line from its hook on and offers the block as the tip, whether
      or not it was stored before. */
  lemma ConfirmExact(f: Forks, b: Block, k: nat)
    requires Wf(f) && f.confirmed <= f.blocks.Keys && Anchored(f, Ancestors(b), k)
    ensures var r := ConfirmBlockAndAncestors(f, b);
            var added := Unstored(f, Ancestors(b), k);
            && r.error == None
            && r.state.confirmed == f.confirmed + added && r.state.blocks.Keys == f.blocks.Keys + added
            && Digest(b) in r.state.blocks
            && r.state.known == f.known && r.state.queries == f.queries
            && r.state.offered == f.offered + [b] && TipAfter(f, r.state, b)
  {
    hide Ancestors, ConfirmWalk, Anchored;
    ConfirmWalkExact(f, b, k);
    LastStored(f, b, k);
  }

  lemma LastStored(f: Forks, b: Block, k: nat)
    requires Anchored(f, Ancestors(b), k)
    ensures Digest(b) in f.blocks || Digest(b) in Unstored(f, Ancestors(b), k)
  {
    var line := Ancestors(b);
    assert line[k..][|line| - 1 - k] == b;
  }

  /** Adding any block: it becomes known; if its line hangs it is confirmed and offered, otherwise exactly one search is
      opened, for the parent where the line breaks, and nothing else changes. It is stored afterwards exactly in the
      first case. */
  lemma AddExact(f: Forks, b: Block) returns (k: nat)
    requires ForkInv(f)
    ensures var f', line, r := f.(known := f.known[Digest(b) := b]), Ancestors(b), AddBlockAndAncestors(f, b);
            && k < |line| && r.error == None && r.state.known == f'.known
            && (if Digest(b) in r.state.blocks
                then
                  && Anchored(f', line, k)
                  && r.state.confirmed == f.confirmed + Unstored(f, line, k)
                  && r.state.blocks.Keys == f.blocks.Keys + Unstored(f, line, k)
                  && r.state.queries == f.queries
                  && r.state.offered == f.offered + [b] && TipAfter(f, r.state, b)
                else
                  && BreaksAt(f', line, k)
                  && r.state == f'.(queries := f.queries + multiset{Query(line[k], b)}))
  {
    hide Ancestors, ConfirmBlockAndAncestors, FindGap, FirstHighest, ClosedBut, BreaksAt, Anchored;
    AddBlockKeeps(f, b);
    var f' := AddBlock(f, b);
    k := FindGapExact(f', b);
    match FindGap(f', b).value {
      case None =>
        ConfirmExact(f', b, k);
        assert Unstored(f', Ancestors(b), k) == Unstored(f, Ancestors(b), k);
      case Some(c) => BrokenIsUnstored(f', b, k);
    }
  }

  lemma BrokenIsUnstored(f: Forks, b: Block, k: nat)
    requires BreaksAt(f, Ancestors(b), k)
    ensures Digest(b) !in f.blocks
  {
    assert Ancestors(b)[|Ancestors(b)| - 1] == b;
  }

  /** A gossiped block that ends up stored, also one that was stored before, becomes the tip unless one at least as high
      is there; a block that does not leaves the tip alone. */
  lemma ArrivalSetsTip(o: Oracle, f: Forks, b: Block)
    requires ForkInv(f) && o.meets(Digest(b))
    ensures var g := HandleNewBlock(o, f, b).state;
            && (Digest(b) in f.blocks ==> Digest(b) in g.blocks)
            && if Digest(b) in g.blocks then TipAfter(f, g, b) && g.highest.value.number >= b.number
               else g.highest == f.highest
  {
    hide AddBlockAndAncestors, Ancestors, Anchored, BreaksAt;
    var k := AddExact(f, b);
  }

  lemma AdmittedAnswer(o: Oracle, f: Forks, q: Query, p: Block)
    requires Wf(f) && q.cur.parentHash == Digest(p) && q.cur.number == p.number + 1 && o.meets(Digest(p))
    requires AddBlockAndAncestors(AddBlock(f, p), q.block).error == None
    ensures HandleAnswer(o, f, q, Some(p)) == CloseQuery(AddBlockAndAncestors(AddBlock(f, p), q.block).state, q)
  {
    hide AddBlockAndAncestors;
  }

  /** The same for the block whose search an admitted answer serves. */
  lemma AnswerSetsTip(o: Oracle, f: Forks, q: Query, p: Block)
    requires ForkInv(f) && q.cur.parentHash == Digest(p) && q.cur.number == p.number + 1 && o.meets(Digest(p))
    ensures var g := HandleAnswer(o, f, q, Some(p));
            && g.known == f.known[Digest(p) := p][Digest(q.block) := q.block]
            && g.offered == f.offered + (if Digest(q.block) in g.blocks then [q.block] else [])
            && if Digest(q.block) in g.blocks then TipAfter(f, g, q.block) && g.highest.value.number >= q.block.number
               else g.highest == f.highest && g.blocks == f.blocks
  {
    hide AddBlockAndAncestors, HandleAnswer, Ancestors, Anchored, BreaksAt, FirstHighest, ClosedBut, Unstored;
    AddBlockKeeps(f, p);
    var k := AddExact(AddBlock(f, p), q.block);
    AdmittedAnswer(o, f, q, p);
  }

  /** And for a produced block on a stored parent. */
  lemma ProducedSetsTip(f: Forks, b: Block)
    requires ForkInv(f) && b.parentHash in f.blocks
    ensures TipAfter(f, ConfirmBlockAndAncestors(f, b).state, b)
    ensures ConfirmBlockAndAncestors(f, b).state.offered == f.offered + [b]
  {
    hide Ancestors, ConfirmBlockAndAncestors, FirstHighest, ClosedBut, Unstored;
    ProduceKeeps(f, b);
    var k := FindGapExact(f, b);
    ConfirmKeepsIff(f, b);
    ConfirmExact(f, b, k);
  }
}
