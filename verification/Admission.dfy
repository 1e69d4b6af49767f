/** Which blocks get into a node: any property that every admitted arrival has, every known, stored and queried
    block has. */
module Admission {
  import opened Types
  import opened ForkChoice
  import opened NodeRuns

  /** Every block the fork manager holds has the property. */
  ghost predicate All(f: Forks, p: Block -> bool) {
    && (forall h :: h in f.known ==> p(f.known[h]))
    && (forall h :: h in f.blocks ==> p(f.blocks[h]))
    && (forall q :: q in f.queries ==> p(q.block))
  }

  lemma {:induction false} WalkKeepsAll(f: Forks, cur: Block, p: Block -> bool)
    requires Wf(f) && All(f, p) && p(cur)
    ensures All(ConfirmWalk(f, cur).state, p)
    decreases cur
  {
    if !IsConfirmed(f, Digest(cur)) && cur.number != 0 {
      var f' := ConfirmBlock(f, cur);
      if GetParent(f', cur).Ok? {
        WalkKeepsAll(f', GetParent(f', cur).value, p);
      }
    }
  }

  lemma AddKeepsAll(f: Forks, b: Block, p: Block -> bool)
    requires Wf(f) && All(f, p) && p(b)
    ensures All(AddBlockAndAncestors(f, b).state, p)
  {
    WalkKeepsAll(AddBlock(f, b), b, p);
  }

  lemma ProduceKeepsAll(f: Forks, b: Block, p: Block -> bool)
    requires Wf(f) && All(f, p) && p(b)
    ensures All(ConfirmBlockAndAncestors(f, b).state, p)
  {
    WalkKeepsAll(f, b, p);
  }

  /** A gossiped block is only ever let in when it meets the difficulty. */
  lemma NewBlockKeepsAll(o: Oracle, f: Forks, b: Block, p: Block -> bool)
    requires Wf(f) && All(f, p) && (o.meets(Digest(b)) ==> p(b))
    ensures All(HandleNewBlock(o, f, b).state, p)
  {
    if o.meets(Digest(b)) {
      AddKeepsAll(f, b, p);
    }
  }

  /** An answer is only let in when it is the block asked for, one below its child, and meets the difficulty. */
  lemma AnswerKeepsAll(o: Oracle, f: Forks, q: Query, reply: Option<Block>, p: Block -> bool)
    requires Wf(f) && All(f, p) && q in f.queries
    requires match reply
             case None => true
             case Some(b) =>
               (q.cur.parentHash == Digest(b) && q.cur.number == b.number + 1 && o.meets(Digest(b)) ==> p(b))
    ensures All(HandleAnswer(o, f, q, reply), p)
  {
    hide AddBlockAndAncestors;
    match reply {
      case None =>
      case Some(b) =>
        if q.cur.parentHash == Digest(b) && q.cur.number == b.number + 1 && o.meets(Digest(b)) {
          AddKeepsAll(AddBlock(f, b), q.block, p);
        }
    }
  }

  /** An answer that is not the block asked for changes nothing and leaves the query open; a timeout or an unusable
      parent closes it and lets nothing in. */
  lemma UselessAnswer(o: Oracle, f: Forks, q: Query, reply: Option<Block>)
    requires Wf(f) && q in f.queries
    requires reply.Some? ==> reply.value.number + 1 != q.cur.number || !o.meets(Digest(reply.value))
                             || q.cur.parentHash != Digest(reply.value)
    ensures var g := HandleAnswer(o, f, q, reply);
            && g.known == f.known && g.blocks == f.blocks && g.highest == f.highest
            && (if reply.Some? && q.cur.parentHash != Digest(reply.value) then g == f
                else g.queries[q] == f.queries[q] - 1)
  {
  }

  ghost predicate Worked(o: Oracle, b: Block) {
    b == GENESIS || o.meets(Digest(b))
  }

  lemma StepKeepsWork(o: Oracle, n: Node, e: Event)
    requires Wf(n.forks) && All(n.forks, b => Worked(o, b))
    ensures All(Step(o, n, e).forks, b => Worked(o, b))
  {
    hide HandleNewBlock, HandleAnswer, StartMiningStep, ConfirmBlockAndAncestors;
    var p := b => Worked(o, b);
    match e {
      case NewBlock(b) => NewBlockKeepsAll(o, n.forks, b, p);
      case Answer(q, reply) =>
        if q in n.forks.queries {
          AnswerKeepsAll(o, n.forks, q, reply, p);
        }
      case StartMining(coinbase) => MiningKeepsForks(o, n, coinbase);
      case Mined(nonce) =>
        if n.candidate.Some? && o.meets(Digest(n.candidate.value.(nonce := nonce))) {
          ProduceKeepsAll(n.forks, n.candidate.value.(nonce := nonce), p);
        }
      case _ =>
    }
  }

  /** Over every run, restarts included, every known or stored block but genesis meets the difficulty. */
  lemma {:induction false} NothingEntersWithoutWork(o: Oracle, events: seq<Event>)
    ensures All(Run(o, events).forks, b => Worked(o, b))
    decreases |events|
  {
    if events != [] {
      var front := events[..|events| - 1];
      NothingEntersWithoutWork(o, front);
      StepKeepsWork(o, Run(o, front), events[|events| - 1]);
    }
  }
}
