/** The fork manager as functions on values: known and confirmed blocks, open queries for missing parents,
    and the highest block. The class `ForkManagement.ForkManager` is proved against them. */
module ForkChoice {
  import opened Types

  /** An open search: `cur` is the block whose parent is asked for, `block` the one that started the walk. */
  datatype Query = Query(cur: Block, block: Block)

  /** `blocks` is the block storage. `offered` is history only: the blocks given to `_update_chain_tip`. */
  datatype Forks = Forks(known: map<Hash, Block>, confirmed: set<Hash>, blocks: map<Hash, Block>,
                         highest: Option<Block>, queries: multiset<Query>, offered: seq<Block>)

  /** Every block sits under its own hash. */
  predicate Keyed(m: map<Hash, Block>) {
    forall h :: h in m ==> h == Digest(m[h])
  }

  predicate Wf(f: Forks) {
    Keyed(f.known) && Keyed(f.blocks)
  }

  function GetKnown(f: Forks, h: Hash): Option<Block> {
    if h in f.known then Some(f.known[h]) else if h in f.blocks then Some(f.blocks[h]) else None
  }

  function GetParent(f: Forks, b: Block): Result<Block> {
    match GetKnown(f, b.parentHash)
    case None => Err(ParentNotFound)
    case Some(p) => Ok(p)
  }

  /** The block's parent can be loaded. */
  predicate ParentKnown(f: Forks, b: Block) {
    b.parentHash in f.known || b.parentHash in f.blocks
  }

  predicate IsConfirmed(f: Forks, h: Hash) {
    h in f.confirmed || h in f.blocks
  }

  predicate IsKnown(f: Forks, h: Hash) {
    h in f.known || IsConfirmed(f, h)
  }

  function AddBlock(f: Forks, b: Block): Forks {
    f.(known := f.known[Digest(b) := b])
  }

  /** The first loop of `_add_block_and_ancestors`: `None` when everything down to number 0 or a confirmed
      block is known, otherwise the first block whose parent is not. */
  function FindGap(f: Forks, cur: Block): Result<Option<Block>>
    requires Wf(f)
    decreases cur
  {
    if cur.number == 0 || IsConfirmed(f, Digest(cur)) then Ok(None)
    else if !IsKnown(f, cur.parentHash) then Ok(Some(cur))
    else
      var p :- GetParent(f, cur);
      FindGap(f, p)
  }

  function ConfirmBlock(f: Forks, b: Block): Forks {
    f.(confirmed := f.confirmed + {Digest(b)}, blocks := f.blocks[Digest(b) := b])
  }

  function ConfirmWalk(f: Forks, cur: Block): (r: Outcome<Forks>)
    requires Wf(f)
    ensures Wf(r.state)
    decreases cur
  {
    if IsConfirmed(f, Digest(cur)) then Outcome(None, f) else
    var f' := ConfirmBlock(f, cur);
    if cur.number == 0 then Outcome(None, f') else
    match GetParent(f', cur)
    case Err(e) => Outcome(Some(e), f')
    case Ok(p) => ConfirmWalk(f', p)
  }

  function UpdateTip(f: Forks, b: Block): Forks {
    var higher := f.highest.None? || b.number > f.highest.value.number;
    f.(offered := f.offered + [b], highest := if higher then Some(b) else f.highest)
  }

  function ConfirmBlockAndAncestors(f: Forks, b: Block): (r: Outcome<Forks>)
    requires Wf(f)
    ensures Wf(r.state)
  {
    var walked := ConfirmWalk(f, b);
    if walked.error.Some? then walked else Outcome(None, UpdateTip(walked.state, b))
  }

  function AddBlockAndAncestors(f: Forks, b: Block): (r: Outcome<Forks>)
    requires Wf(f)
    ensures Wf(r.state)
  {
    var f' := AddBlock(f, b);
    match FindGap(f', b)
    case Err(e) => Outcome(Some(e), f')
    case Ok(None) => ConfirmBlockAndAncestors(f', b)
    case Ok(Some(c)) => Outcome(None, f'.(queries := f'.queries + multiset{Query(c, b)}))
  }

  function HandleNewBlock(o: Oracle, f: Forks, b: Block): (r: Outcome<Forks>)
    requires Wf(f)
    ensures Wf(r.state)
  {
    if o.meets(Digest(b)) then AddBlockAndAncestors(f, b) else Outcome(None, f)
  }

  function CloseQuery(f: Forks, q: Query): Forks {
    f.(queries := f.queries - multiset{q})
  }

  /** One result of an open query: a block, or `None` for a timeout. The query is closed unless the block
      is not the one asked for or the handler raised. */
  function HandleAnswer(o: Oracle, f: Forks, q: Query, reply: Option<Block>): (r: Forks)
    requires Wf(f)
    ensures Wf(r)
  {
    match reply
    case None => CloseQuery(f, q)
    case Some(p) =>
      if q.cur.parentHash != Digest(p) then f
      else if q.cur.number != p.number + 1 || !o.meets(Digest(p)) then CloseQuery(f, q)
      else
        var added := AddBlockAndAncestors(AddBlock(f, p), q.block);
        if added.error.Some? then added.state else CloseQuery(added.state, q)
  }

  // ----- The invariant -----

  /** Every stored block has number 0, a stored parent, or `pending` as its parent. */
  ghost predicate ClosedBut(blocks: map<Hash, Block>, pending: Option<Hash>) {
    forall h :: h in blocks ==>
      || blocks[h].number == 0
      || blocks[h].parentHash in blocks
      || pending == Some(blocks[h].parentHash)
  }

  /** `t` is the first among the highest of `offered`. */
  ghost predicate FirstHighest(offered: seq<Block>, t: Block) {
    exists i :: 0 <= i < |offered| && offered[i] == t
                && (forall j :: 0 <= j < i ==> offered[j].number < t.number)
                && (forall j :: i < j < |offered| ==> offered[j].number <= t.number)
  }

  ghost predicate ForkInv(f: Forks) {
    && Wf(f)
    && f.confirmed <= f.blocks.Keys
    && ClosedBut(f.blocks, None)
    && (f.highest.None? <==> f.offered == [])
    && (f.highest.Some? ==> Digest(f.highest.value) in f.blocks && FirstHighest(f.offered, f.highest.value))
  }

  /** The highest block is kept or replaced by a strictly higher one. */
  ghost predicate TipRises(f: Forks, g: Forks) {
    || g.highest == f.highest
    || (g.highest.Some? && (f.highest.None? || g.highest.value.number > f.highest.value.number))
  }

  /** Nothing known, stored or confirmed is ever lost, and the tip only rises. */
  ghost predicate Grows(f: Forks, g: Forks) {
    && f.known.Keys <= g.known.Keys
    && f.blocks.Keys <= g.blocks.Keys
    && f.confirmed <= g.confirmed
    && TipRises(f, g)
  }

  lemma {:induction false} FindGapMonotone(f: Forks, g: Forks, cur: Block)
    requires Wf(f) && Wf(g) && Grows(f, g) && FindGap(f, cur) == Ok(None)
    ensures FindGap(g, cur) == Ok(None)
    decreases cur
  {
    if !(cur.number == 0 || IsConfirmed(g, Digest(cur))) {
      FindGapMonotone(f, g, GetParent(f, cur).value);
    }
  }

  /** With the confirmed set inside the storage, the gap search never fails to find a parent. */
  lemma {:induction false} FindGapNeverRaises(f: Forks, cur: Block)
    requires Wf(f) && f.confirmed <= f.blocks.Keys
    ensures FindGap(f, cur).Ok?
    decreases cur
  {
    if cur.number != 0 && !IsConfirmed(f, Digest(cur)) && IsKnown(f, cur.parentHash) {
      FindGapNeverRaises(f, GetParent(f, cur).value);
    }
  }

  /** The confirming walk stores a block before its parent, yet once the gap search found no gap it finds every
      parent, and afterwards every stored block has number 0 or a stored parent again. */
  lemma {:induction false} ConfirmWalkCloses(f: Forks, cur: Block)
    requires Wf(f) && f.confirmed <= f.blocks.Keys
    requires ClosedBut(f.blocks, Some(Digest(cur)))
    requires FindGap(f, cur) == Ok(None)
    ensures var r := ConfirmWalk(f, cur);
            && r.error == None
            && r.state.confirmed <= r.state.blocks.Keys
            && ClosedBut(r.state.blocks, None)
            && Digest(cur) in r.state.blocks
            && Grows(f, r.state)
            && r.state == f.(confirmed := r.state.confirmed, blocks := r.state.blocks)
    decreases cur
  {
    if !IsConfirmed(f, Digest(cur)) && cur.number != 0 {
      var f' := ConfirmBlock(f, cur);
      var p := GetParent(f, cur).value;
      FindGapMonotone(f, f', p);
      ConfirmWalkCloses(f', p);
    }
  }

  lemma UpdateTipKeeps(f: Forks, b: Block)
    requires ForkInv(f) && Digest(b) in f.blocks
    ensures ForkInv(UpdateTip(f, b))
  {
    hide ClosedBut, Keyed;
    var g := UpdateTip(f, b);
    if f.highest.None? || b.number > f.highest.value.number {
      assert g.offered[|f.offered|] == b;
      if f.highest.Some? {
        var i :| 0 <= i < |f.offered| && f.offered[i] == f.highest.value
                 && (forall j :: 0 <= j < i ==> f.offered[j].number < f.highest.value.number)
                 && (forall j :: i < j < |f.offered| ==> f.offered[j].number <= f.highest.value.number);
        assert forall j :: 0 <= j < |f.offered| ==> f.offered[j].number < b.number;
      }
    } else {
      var t := f.highest.value;
      var i :| 0 <= i < |f.offered| && f.offered[i] == t
               && (forall j :: 0 <= j < i ==> f.offered[j].number < t.number)
               && (forall j :: i < j < |f.offered| ==> f.offered[j].number <= t.number);
      assert g.offered[i] == t;
    }
  }

  /** A block whose chain of known ancestors has no gap is confirmed with them, without raising. */
  lemma ConfirmKeeps(f: Forks, b: Block)
    requires ForkInv(f) && FindGap(f, b) == Ok(None)
    ensures var r := ConfirmBlockAndAncestors(f, b);
            r.error == None && ForkInv(r.state) && Grows(f, r.state) && Digest(b) in r.state.blocks
  {
    ConfirmWalkCloses(f, b);
    UpdateTipKeeps(ConfirmWalk(f, b).state, b);
  }

  /** Adding any block whatsoever keeps the invariant and never raises. */
  lemma AddBlockAndAncestorsKeeps(f: Forks, b: Block)
    requires ForkInv(f)
    ensures var r := AddBlockAndAncestors(f, b);
            && r.error == None && ForkInv(r.state) && Grows(f, r.state)
            && (FindGap(AddBlock(f, b), b) == Ok(None) <==> Digest(b) in r.state.blocks)
  {
    var f' := AddBlock(f, b);
    AddBlockKeeps(f, b);
    FindGapNeverRaises(f', b);
    if FindGap(f', b) == Ok(None) {
      ConfirmKeeps(f', b);
    }
  }

  lemma HandleNewBlockKeeps(o: Oracle, f: Forks, b: Block)
    requires ForkInv(f)
    ensures var r := HandleNewBlock(o, f, b);
            r.error == None && ForkInv(r.state) && Grows(f, r.state)
  {
    AddBlockAndAncestorsKeeps(f, b);
  }

  lemma AddBlockKeeps(f: Forks, b: Block)
    requires ForkInv(f)
    ensures ForkInv(AddBlock(f, b)) && Grows(f, AddBlock(f, b))
  {
  }

  lemma CloseQueryKeeps(f: Forks, q: Query)
    requires ForkInv(f)
    ensures ForkInv(CloseQuery(f, q)) && Grows(f, CloseQuery(f, q))
  {
  }

  lemma GrowsReflexive(f: Forks)
    ensures Grows(f, f)
  {
  }

  lemma GrowsTransitive(f: Forks, g: Forks, h: Forks)
    requires Grows(f, g) && Grows(g, h)
    ensures Grows(f, h)
  {
  }

  lemma HandleAnswerKeeps(o: Oracle, f: Forks, q: Query, reply: Option<Block>)
    requires ForkInv(f)
    ensures var r := HandleAnswer(o, f, q, reply);
            ForkInv(r) && Grows(f, r)
  {
    hide FirstHighest, ClosedBut, Keyed, AddBlockAndAncestors, Grows, TipRises, FindGap, AddBlock, CloseQuery;
    GrowsReflexive(f);
    CloseQueryKeeps(f, q);
    if reply.Some? {
      var asked := AddBlock(f, reply.value);
      AddBlockKeeps(f, reply.value);
      AddBlockAndAncestorsKeeps(asked, q.block);
      var added := AddBlockAndAncestors(asked, q.block).state;
      CloseQueryKeeps(added, q);
      GrowsTransitive(f, asked, added);
      GrowsTransitive(f, added, CloseQuery(added, q));
    }
  }

  /** A produced block whose parent is stored is confirmed on the spot, without raising. */
  lemma ProduceKeeps(f: Forks, b: Block)
    requires ForkInv(f) && b.parentHash in f.blocks
    ensures var r := ConfirmBlockAndAncestors(f, b);
            r.error == None && ForkInv(r.state) && Grows(f, r.state) && Digest(b) in r.state.blocks
  {
    if b.number != 0 && !IsConfirmed(f, Digest(b)) {
      assert FindGap(f, GetParent(f, b).value) == Ok(None);
    }
    ConfirmKeeps(f, b);
  }

  // ----- When exactly confirming keeps the invariant -----

  /** Storing a block does not change a gap search among its proper ancestors. */
  lemma {:induction false} FindGapBelow(f: Forks, b: Block, cur: Block)
    requires Wf(f) && |Ancestors(cur)| < |Ancestors(b)|
    ensures FindGap(ConfirmBlock(f, b), cur) == FindGap(f, cur)
    decreases cur
  {
    if cur.number != 0 && !IsConfirmed(f, Digest(cur)) && IsKnown(f, cur.parentHash) {
      match GetParent(f, cur)
      case Err(_) =>
      case Ok(p) => FindGapBelow(f, b, p);
    }
  }

  /** The confirming walk stores everything down to the gap and raises there: the block above it is stored, without its
      parent. */
  lemma {:induction false} ConfirmWalkStopsAtGap(f: Forks, cur: Block, c: Block)
    requires Wf(f) && FindGap(f, cur) == Ok(Some(c))
    ensures var r := ConfirmWalk(f, cur);
            && r.error == Some(ParentNotFound)
            && Digest(c) in r.state.blocks && c.number != 0 && c.parentHash !in r.state.blocks
    decreases cur
  {
    var f' := ConfirmBlock(f, cur);
    if IsKnown(f, cur.parentHash) {
      var p := GetParent(f, cur).value;
      FindGapBelow(f, cur, p);
      ConfirmWalkStopsAtGap(f', p, c);
    } else {
      assert cur.parentHash != Digest(cur);
    }
  }

  /** Confirming any block keeps the fork-manager invariant if and only if no ancestor is missing down to number 0 or a
      confirmed block. With one missing it raises halfway. */
  lemma ConfirmKeepsIff(f: Forks, b: Block)
    requires ForkInv(f)
    ensures ForkInv(ConfirmBlockAndAncestors(f, b).state) <==> FindGap(f, b) == Ok(None)
    ensures ConfirmBlockAndAncestors(f, b).error == if FindGap(f, b) == Ok(None) then None else Some(ParentNotFound)
  {
    hide FirstHighest, ConfirmWalk;
    FindGapNeverRaises(f, b);
    match FindGap(f, b).value {
      case None => ConfirmKeeps(f, b);
      case Some(c) =>
        ConfirmWalkStopsAtGap(f, b, c);
        var g := ConfirmBlockAndAncestors(f, b).state;
        assert Digest(c) == Digest(g.blocks[Digest(c)]);
    }
  }
}
