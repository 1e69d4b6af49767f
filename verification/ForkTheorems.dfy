/** What the fork manager guarantees when every block it is given is well numbered: the highest block is the
    highest confirmed one, stored blocks have their whole ancestry stored, and orphans catch up. */
module ForkTheorems {
  import opened Types
  import opened ForkChoice

  /** Every block the fork manager holds is well numbered, and genesis is stored. */
  ghost predicate Numbered(f: Forks) {
    && (forall h :: h in f.known ==> WellNumbered(f.known[h]))
    && (forall h :: h in f.blocks ==> WellNumbered(f.blocks[h]))
    && (forall q :: q in f.queries ==> WellNumbered(q.block))
    && (f.highest.Some? ==> WellNumbered(f.highest.value))
    && Digest(GENESIS) in f.blocks
  }

  /** The highest block has the greatest number among all blocks confirmed since the start. */
  ghost predicate HighestIsMaximal(f: Forks) {
    forall h :: h in f.confirmed && h in f.blocks ==>
      f.highest.Some? && f.blocks[h].number <= f.highest.value.number
  }

  ghost predicate StrongInv(f: Forks) {
    ForkInv(f) && Numbered(f) && HighestIsMaximal(f)
  }

  // ----- Stored ancestry -----

  lemma WellNumberedZero(b: Block)
    requires WellNumbered(b) && b.number == 0
    ensures b == GENESIS
  {
    WellNumberedPositions(b);
  }

  /** A stored well-numbered block has all its ancestors stored. */
  lemma {:induction false} AncestryStored(f: Forks, b: Block)
    requires ForkInv(f) && Numbered(f) && Digest(b) in f.blocks
    ensures forall i :: 0 <= i < |Ancestors(b)| ==> Digest(Ancestors(b)[i]) in f.blocks
    decreases b
  {
    assert WellNumbered(f.blocks[Digest(b)]);
    if b.parentHash.Digest? {
      if b.number == 0 {
        WellNumberedZero(b);
      }
      AncestryStored(f, b.parentHash.block);
    }
  }

  // ----- The highest block -----

  /** The confirming walk only adds blocks numbered at most as its start. */
  lemma {:induction false} ConfirmWalkNumbers(f: Forks, cur: Block)
    requires Wf(f) && WellNumbered(cur)
    ensures forall h :: h in ConfirmWalk(f, cur).state.confirmed && h !in f.confirmed ==>
              h.Digest? && h.block.number <= cur.number
    ensures forall h :: h in ConfirmWalk(f, cur).state.blocks && h !in f.blocks ==>
              WellNumbered(ConfirmWalk(f, cur).state.blocks[h])
    decreases cur
  {
    if !IsConfirmed(f, Digest(cur)) && cur.number != 0 {
      var f' := ConfirmBlock(f, cur);
      if GetParent(f', cur).Ok? {
        ConfirmWalkNumbers(f', GetParent(f', cur).value);
      }
    }
  }

  lemma ConfirmKeepsStrong(f: Forks, b: Block)
    requires StrongInv(f) && WellNumbered(b) && FindGap(f, b) == Ok(None)
    ensures StrongInv(ConfirmBlockAndAncestors(f, b).state)
  {
    ConfirmKeeps(f, b);
    ConfirmWalkCloses(f, b);
    ConfirmWalkNumbers(f, b);
    var r := ConfirmBlockAndAncestors(f, b).state;
    forall h | h in r.confirmed && h in r.blocks
      ensures r.highest.Some? && r.blocks[h].number <= r.highest.value.number {
      assert h == Digest(r.blocks[h]);
      if h in f.confirmed {
        assert f.blocks[h].number <= f.highest.value.number;
        assert h == Digest(f.blocks[h]);
      }
    }
  }

  lemma AddBlockKeepsStrong(f: Forks, b: Block)
    requires StrongInv(f) && WellNumbered(b)
    ensures StrongInv(AddBlock(f, b))
  {
  }

  lemma AskKeepsStrong(f: Forks, q: Query)
    requires StrongInv(f) && WellNumbered(q.block)
    ensures StrongInv(f.(queries := f.queries + multiset{q}))
  {
  }

  lemma CloseKeepsStrong(f: Forks, q: Query)
    requires StrongInv(f)
    ensures StrongInv(CloseQuery(f, q))
  {
  }

  lemma AddBlockAndAncestorsKeepsStrong(f: Forks, b: Block)
    requires StrongInv(f) && WellNumbered(b)
    ensures StrongInv(AddBlockAndAncestors(f, b).state)
  {
    AddBlockKeepsStrong(f, b);
    var f' := AddBlock(f, b);
    FindGapNeverRaises(f', b);
    match FindGap(f', b).value {
      case None => ConfirmKeepsStrong(f', b);
      case Some(c) => AskKeepsStrong(f', Query(c, b));
    }
  }

  /** Fork choice: handling any well-numbered arrival keeps the highest block the first of the highest confirmed
      ones, and replaces it only by a strictly higher block. */
  lemma HandleNewBlockKeepsStrong(o: Oracle, f: Forks, b: Block)
    requires StrongInv(f) && WellNumbered(b)
    ensures StrongInv(HandleNewBlock(o, f, b).state)
  {
    AddBlockAndAncestorsKeepsStrong(f, b);
  }

  lemma HandleAnswerKeepsStrong(o: Oracle, f: Forks, q: Query, reply: Option<Block>)
    requires StrongInv(f) && q in f.queries && (reply.Some? ==> WellNumbered(reply.value))
    ensures StrongInv(HandleAnswer(o, f, q, reply))
  {
    CloseKeepsStrong(f, q);
    if reply.Some? {
      var asked := AddBlock(f, reply.value);
      AddBlockKeepsStrong(f, reply.value);
      AddBlockAndAncestorsKeepsStrong(asked, q.block);
      CloseKeepsStrong(AddBlockAndAncestors(asked, q.block).state, q);
    }
  }

  lemma ProduceKeepsStrong(f: Forks, b: Block)
    requires StrongInv(f) && WellNumbered(b) && b.parentHash in f.blocks
    ensures StrongInv(ConfirmBlockAndAncestors(f, b).state)
  {
    if b.number != 0 && !IsConfirmed(f, Digest(b)) {
      assert FindGap(f, GetParent(f, b).value) == Ok(None);
    }
    ConfirmKeepsStrong(f, b);
  }

  // ----- Orphan catch-up -----

  ghost predicate AncestorsMeet(o: Oracle, b: Block) {
    forall i :: 0 < i < |Ancestors(b)| ==> o.meets(Digest(Ancestors(b)[i]))
  }

  /** The ancestors of `b` the node does not know. */
  ghost function Unknown(f: Forks, b: Block): set<Block> {
    set x | x in Ancestors(b) && !IsKnown(f, Digest(x))
  }

  /** What is missing from a walk that starts in the ancestry of `b` lies in that ancestry. */
  lemma {:induction false} GapIsInAncestry(f: Forks, b: Block, k: nat)
    requires Wf(f) && WellNumbered(b) && k < |Ancestors(b)|
    requires Digest(GENESIS) in f.blocks
    requires FindGap(f, Ancestors(b)[k]).Ok? && FindGap(f, Ancestors(b)[k]).value.Some?
    ensures var c := FindGap(f, Ancestors(b)[k]).value.value;
            && c.parentHash.Digest? && c.number == c.parentHash.block.number + 1
            && c.parentHash.block in Ancestors(b) && c.parentHash.block != GENESIS
            && !IsKnown(f, c.parentHash)
    decreases k
  {
    WellNumberedPositions(b);
    AncestorsLinked(b);
    var cur := Ancestors(b)[k];
    assert k > 0;
    assert cur.parentHash == Digest(Ancestors(b)[k - 1]);
    if IsKnown(f, cur.parentHash) {
      GapIsInAncestry(f, b, k - 1);
    }
  }

  /** Answer the open query for `b` with the block asked for, and the next one, until none is open. Returns the
      final state and the number of queries answered. */
  ghost function Serve(o: Oracle, f: Forks, b: Block): (Forks, nat)
    requires StrongInv(f) && WellNumbered(b) && AncestorsMeet(o, b)
    decreases |Unknown(f, b)|
  {
    FindGapNeverRaises(f, b);
    if FindGap(f, b).value.None? then (f, 0) else
    var c := FindGap(f, b).value.value;
    ServeStep(o, f, b);
    var next := HandleAnswer(o, f, Query(c, b), Some(c.parentHash.block));
    var (last, answered) := Serve(o, next, b);
    (last, answered + 1)
  }

  /** A correct answer is accepted: it makes the missing parent known and resumes the walk from `b`. */
  lemma AnswerAccepted(o: Oracle, f: Forks, b: Block, c: Block)
    requires StrongInv(f) && WellNumbered(b) && AncestorsMeet(o, b)
    requires FindGap(f, b) == Ok(Some(c))
    ensures c.parentHash.Digest?
    ensures c.parentHash.block in Unknown(f, b)
    ensures var p := c.parentHash.block;
            && WellNumbered(p)
            && HandleAnswer(o, f, Query(c, b), Some(p))
               == (var added := AddBlockAndAncestors(AddBlock(f, p), b);
                   if added.error.Some? then added.state else CloseQuery(added.state, Query(c, b)))
  {
    GapIsInAncestry(f, b, |Ancestors(b)| - 1);
    WellNumberedPositions(b);
    var p := c.parentHash.block;
    var i :| 0 <= i < |Ancestors(b)| && Ancestors(b)[i] == p;
    assert WellNumbered(p) && o.meets(Digest(p));
  }

  lemma UnknownShrinks(f: Forks, g: Forks, b: Block, p: Block)
    requires Grows(f, g) && p in Unknown(f, b) && IsKnown(g, Digest(p)) && f.confirmed <= f.blocks.Keys
    ensures Unknown(g, b) < Unknown(f, b)
    ensures |Unknown(g, b)| < |Unknown(f, b)|
  {
    assert p !in Unknown(g, b);
    forall x | x in Unknown(g, b) ensures x in Unknown(f, b) {}
    ProperSubsetSmaller(Unknown(g, b), Unknown(f, b));
  }

  /** Closing the query that was answered leaves the next one open. */
  lemma NextQueryOpen(added: Forks, b: Block, c: Block)
    requires Wf(added) && WellNumbered(b) && Digest(GENESIS) in added.blocks
    requires IsKnown(added, c.parentHash)
    requires FindGap(added, b).Ok?
    requires FindGap(added, b).value.Some? ==> Query(FindGap(added, b).value.value, b) in added.queries
    ensures var next := CloseQuery(added, Query(c, b));
            && FindGap(next, b) == FindGap(added, b)
            && (FindGap(next, b).value.Some? ==> Query(FindGap(next, b).value.value, b) in next.queries)
  {
    SameGap(added, CloseQuery(added, Query(c, b)), b);
    if FindGap(added, b).value.Some? {
      GapIsInAncestry(added, b, |Ancestors(b)| - 1);
    }
  }

  /** One correct answer strictly shrinks the set of unknown ancestors, and the handler leaves either no gap
      (and `b` confirmed) or the next query open. */
  lemma ServeStep(o: Oracle, f: Forks, b: Block)
    requires StrongInv(f) && WellNumbered(b) && AncestorsMeet(o, b)
    requires FindGap(f, b).Ok? && FindGap(f, b).value.Some?
    ensures var c := FindGap(f, b).value.value;
            && c.parentHash.Digest?
            && var next := HandleAnswer(o, f, Query(c, b), Some(c.parentHash.block));
            && StrongInv(next) && Grows(f, next)
            && Unknown(next, b) < Unknown(f, b)
            && |Unknown(next, b)| < |Unknown(f, b)|
            && FindGap(next, b).Ok?
            && (FindGap(next, b).value.Some? ==> Query(FindGap(next, b).value.value, b) in next.queries)
            && (FindGap(next, b).value.None? ==> Digest(b) in next.blocks)
  {
    var c := FindGap(f, b).value.value;
    AnswerAccepted(o, f, b, c);
    var p := c.parentHash.block;
    var asked := AddBlock(f, p);
    AddBlockKeepsStrong(f, p);
    var added := AddBlockAndAncestors(asked, b).state;
    var next := CloseQuery(added, Query(c, b));
    assert Grows(f, next) && next == HandleAnswer(o, f, Query(c, b), Some(p)) by {
      AddBlockAndAncestorsKeeps(asked, b);
    }
    assert StrongInv(next) by {
      AddBlockAndAncestorsKeepsStrong(asked, b);
      CloseKeepsStrong(added, Query(c, b));
    }
    assert IsKnown(added, Digest(p)) by {
      AddBlockAndAncestorsKeeps(asked, b);
      assert Digest(p) in asked.known;
    }
    UnknownShrinks(f, next, b, p);
    GapAfterAdding(asked, b);
    NextQueryOpen(added, b, c);
  }

  /** After adding, the gap search from `b` gives what it gave while adding. */
  lemma GapAfterAdding(f: Forks, b: Block)
    requires ForkInv(f)
    ensures var added := AddBlockAndAncestors(f, b).state;
            FindGap(added, b).Ok? &&
            match FindGap(added, b).value
            case None => Digest(b) in added.blocks
            case Some(c) => Query(c, b) in added.queries && Digest(b) !in added.blocks
  {
    AddBlockAndAncestorsKeeps(f, b);
    var f' := AddBlock(f, b);
    FindGapNeverRaises(f', b);
    var added := AddBlockAndAncestors(f, b).state;
    if FindGap(f', b).value.Some? {
      SameGap(f', added, b);
    } else {
      ConfirmWalkCloses(f', b);
    }
  }

  lemma {:induction false} SameGap(f: Forks, g: Forks, cur: Block)
    requires Wf(f) && Wf(g) && f.known == g.known && f.confirmed == g.confirmed && f.blocks == g.blocks
    ensures FindGap(f, cur) == FindGap(g, cur)
    decreases cur
  {
    if cur.number != 0 && !IsConfirmed(f, Digest(cur)) && IsKnown(f, cur.parentHash) {
      match GetParent(f, cur)
      case Err(_) =>
      case Ok(p) => SameGap(f, g, p);
    }
  }

  lemma ProperSubsetSmaller<T>(a: set<T>, b: set<T>)
    requires a < b
    ensures |a| < |b|
  {
    var rest := b - a;
    assert b == a + rest;
    assert rest != {};
  }

  /** Answers are at most as many as unknown ancestors, and at the end `b` and all its ancestors are stored. */
  lemma {:induction false} ServeCompletes(o: Oracle, f: Forks, b: Block)
    requires StrongInv(f) && WellNumbered(b) && AncestorsMeet(o, b)
    requires FindGap(f, b) == Ok(None) ==> Digest(b) in f.blocks
    ensures var (last, answered) := Serve(o, f, b);
            && answered <= |Unknown(f, b)|
            && StrongInv(last)
            && forall i :: 0 <= i < |Ancestors(b)| ==> Digest(Ancestors(b)[i]) in last.blocks
    decreases |Unknown(f, b)|
  {
    FindGapNeverRaises(f, b);
    if FindGap(f, b).value.None? {
      AncestryStored(f, b);
    } else {
      var c := FindGap(f, b).value.value;
      ServeStep(o, f, b);
      ServeCompletes(o, HandleAnswer(o, f, Query(c, b), Some(c.parentHash.block)), b);
    }
  }

  lemma {:induction false} ElementsBound<T>(s: seq<T>, elements: set<T>)
    requires forall x :: x in elements ==> x in s
    ensures |elements| <= |s|
    decreases |s|
  {
    if |s| > 0 {
      ElementsBound(s[..|s| - 1], elements - {s[|s| - 1]});
    } else {
      assert elements == {};
    }
  }

  /** When a block of number at least one arrives, it and genesis are known, so fewer than its number of
      ancestors are not. */
  lemma UnknownAfterArrival(f: Forks, b: Block)
    requires WellNumbered(b) && b.number >= 1
    requires IsKnown(f, Digest(b)) && Digest(GENESIS) in f.blocks
    ensures |Unknown(f, b)| <= b.number - 1
  {
    WellNumberedPositions(b);
    var n := |Ancestors(b)| - 1;
    forall x | x in Unknown(f, b) ensures x in Ancestors(b)[1..n] {
      var i :| 0 <= i < |Ancestors(b)| && Ancestors(b)[i] == x;
      assert i != 0 && i != n;
      assert Ancestors(b)[1..n][i - 1] == x;
    }
    ElementsBound(Ancestors(b)[1..n], Unknown(f, b));
  }

  lemma ArrivalIsKnown(f: Forks, b: Block)
    requires ForkInv(f)
    ensures IsKnown(AddBlockAndAncestors(f, b).state, Digest(b))
  {
    AddBlockAndAncestorsKeeps(f, b);
    var f' := AddBlock(f, b);
    FindGapNeverRaises(f', b);
    if FindGap(f', b) == Ok(None) {
      ConfirmWalkCloses(f', b);
    }
  }

  /** Orphan catch-up: a well-numbered block of number N >= 1 arrives at any node of a fresh run; with each query
      answered by the block asked for, at most N - 1 answers are needed and then the block and all its
      ancestors are confirmed. */
  lemma OrphanCatchesUp(o: Oracle, f: Forks, b: Block)
    requires StrongInv(f) && WellNumbered(b) && b.number >= 1 && AncestorsMeet(o, b)
    ensures var arrived := HandleNewBlock(o, f, b).state;
            && StrongInv(arrived)
            && FindGap(arrived, b).Ok?
            && (FindGap(arrived, b).value.Some? ==> Query(FindGap(arrived, b).value.value, b) in arrived.queries)
            && var (last, answered) := Serve(o, arrived, b);
            && answered <= b.number - 1
            && StrongInv(last)
            && forall i :: 0 <= i < |Ancestors(b)| ==> Digest(Ancestors(b)[i]) in last.blocks
  {
    var n := |Ancestors(b)| - 1;
    WellNumberedPositions(b);
    assert Ancestors(b)[n] == b && o.meets(Digest(b));
    var arrived := AddBlockAndAncestors(f, b).state;
    assert HandleNewBlock(o, f, b).state == arrived;
    AddBlockAndAncestorsKeepsStrong(f, b);
    GapAfterAdding(f, b);
    ArrivalIsKnown(f, b);
    UnknownAfterArrival(arrived, b);
    ServeCompletes(o, arrived, b);
  }
}
