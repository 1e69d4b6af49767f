/** Orphan catch-up in the middle of a run: other blocks, transactions, answers and mining between the answers. */
module CatchUp {
  import opened Types
  import opened ForkChoice
  import opened ForkEffects
  import opened ForkTheorems
  import opened Canonical
  import opened ForkPoint
  import opened NodeRuns

  /** No search started for `b` is open. */
  ghost predicate Quiet(f: Forks, b: Block) {
    forall q :: q in f.queries ==> q.block != b
  }

  /** Exactly one search for `b` is open. It asks for an ancestor of `b` above genesis, the parent of `c`, and
      everything from `c` up to `b` is known. */
  ghost predicate Pending(f: Forks, b: Block, c: Block) {
    && f.queries[Query(c, b)] == 1
    && (forall q :: q in f.queries && q.block == b ==> q == Query(c, b))
    && MissingBelow(b, c)
    && KnownFrom(f, b, c.number)
  }

  /** `c` is numbered one above its parent, an ancestor of `b` other than genesis. */
  predicate MissingBelow(b: Block, c: Block) {
    && c.parentHash.Digest? && c.parentHash.block in Ancestors(b) && c.parentHash.block != GENESIS
    && c.number == c.parentHash.block.number + 1
  }

  ghost predicate KnownFrom(f: Forks, b: Block, number: int) {
    forall x :: x in Ancestors(b) && x.number >= number ==> IsKnown(f, Digest(x))
  }

  /** The open search stands low enough to leave room for the answers still to come. */
  ghost predicate Searching(f: Forks, b: Block, served: nat) {
    exists c :: Pending(f, b, c) && served + c.number <= b.number
  }

  /** After `served` answers: `b` is stored and its search over, or still open. */
  ghost predicate CatchingUp(f: Forks, b: Block, served: nat) {
    || (Quiet(f, b) && Digest(b) in f.blocks && served <= b.number - 1)
    || Searching(f, b, served)
  }

  // ----- One walk from the orphan -----

  /** The walk passes only known blocks before the gap. */
  lemma {:induction false} KnownAboveGap(f: Forks, b: Block, k: nat)
    requires Wf(f) && WellNumbered(b) && k < |Ancestors(b)| && IsKnown(f, Digest(Ancestors(b)[k]))
    requires FindGap(f, Ancestors(b)[k]).Ok? && FindGap(f, Ancestors(b)[k]).value.Some?
    ensures var c := FindGap(f, Ancestors(b)[k]).value.value;
            forall i :: 0 <= i <= k && i >= c.number ==> IsKnown(f, Digest(Ancestors(b)[i]))
    decreases k
  {
    WellNumberedPositions(b);
    AncestorsLinked(b);
    var cur := Ancestors(b)[k];
    assert k > 0 ==> cur.parentHash == Digest(Ancestors(b)[k - 1]);
    if k > 0 && IsKnown(f, cur.parentHash) {
      KnownAboveGap(f, b, k - 1);
    }
  }

  ghost predicate Walked(f: Forks, g: Forks, b: Block, gap: Option<Block>) {
    match gap
    case None => Digest(b) in g.blocks && g.queries == f.queries
    case Some(c) =>
      && g.queries == f.queries + multiset{Query(c, b)}
      && MissingBelow(b, c) && !IsKnown(g, c.parentHash) && KnownFrom(g, b, c.number)
  }

  /** A walk from a well-numbered block ends with the block stored, or with one more search, for a missing ancestor
      below everything known. */
  lemma WalkFrom(f: Forks, b: Block)
    requires StrongInv(f) && WellNumbered(b)
    ensures var g := AddBlockAndAncestors(f, b).state;
            && AddBlockAndAncestors(f, b).error == None
            && StrongInv(g) && Grows(f, g) && IsKnown(g, Digest(b))
            && FindGap(AddBlock(f, b), b).Ok?
            && Walked(f, g, b, FindGap(AddBlock(f, b), b).value)
  {
    hide FirstHighest, ClosedBut, Keyed, Numbered, HighestIsMaximal, FindGap, WellNumbered, TipRises,
      MissingBelow, ConfirmBlockAndAncestors;
    AddBlockAndAncestorsKeeps(f, b);
    AddBlockAndAncestorsKeepsStrong(f, b);
    AddBlockKeepsStrong(f, b);
    ArrivalIsKnown(f, b);
    var f' := AddBlock(f, b);
    FindGapNeverRaises(f', b);
    match FindGap(f', b).value {
      case None => ConfirmKeepsQueries(f', b);
      case Some(c) =>
        GenesisStored(f');
        GapIsMissing(f', b, c);
    }
  }

  lemma GenesisStored(f: Forks)
    requires StrongInv(f)
    ensures Digest(GENESIS) in f.blocks
  {
  }

  lemma GapIsMissing(f: Forks, b: Block, c: Block)
    requires Wf(f) && Digest(GENESIS) in f.blocks && WellNumbered(b) && IsKnown(f, Digest(b))
    requires FindGap(f, b) == Ok(Some(c))
    ensures MissingBelow(b, c) && !IsKnown(f, c.parentHash) && KnownFrom(f, b, c.number)
  {
    hide FindGap, Ancestors, Keyed;
    var last := |Ancestors(b)| - 1;
    GapIsInAncestry(f, b, last);
    KnownAboveGap(f, b, last);
    PositionsAreNumbers(b);
  }

  lemma PositionsAreNumbers(b: Block)
    requires WellNumbered(b)
    ensures forall x :: x in Ancestors(b) ==> 0 <= x.number < |Ancestors(b)| && Ancestors(b)[x.number] == x
  {
    WellNumberedPositions(b);
  }

  lemma ConfirmKeepsQueries(f: Forks, b: Block)
    requires ForkInv(f) && FindGap(f, b) == Ok(None)
    ensures ConfirmBlockAndAncestors(f, b).state.queries == f.queries
  {
    hide FirstHighest;
    ConfirmWalkCloses(f, b);
  }

  // ----- The arrival, an answer, and everything else -----

  lemma WalkedStarts(f: Forks, g: Forks, b: Block, gap: Option<Block>)
    requires Walked(f, g, b, gap) && Quiet(f, b) && IsKnown(g, Digest(b))
    requires WellNumbered(b) && b.number >= 1
    ensures CatchingUp(g, b, 0)
  {
    if gap.Some? {
      AncestorNumbers(b, gap.value.parentHash.block);
      assert Pending(g, b, gap.value);
    }
  }

  lemma ArrivalStarts(o: Oracle, f: Forks, b: Block)
    requires StrongInv(f) && WellNumbered(b) && b.number >= 1 && o.meets(Digest(b)) && Quiet(f, b)
    ensures CatchingUp(HandleNewBlock(o, f, b).state, b, 0)
  {
    hide FirstHighest, ClosedBut, Numbered, HighestIsMaximal, Walked, CatchingUp, AddBlockAndAncestors, FindGap;
    WalkFrom(f, b);
    WalkedStarts(f, AddBlockAndAncestors(f, b).state, b, FindGap(AddBlock(f, b), b).value);
  }

  /** An ancestor that is missing after a correct answer lies strictly below the one that was answered. */
  lemma NextIsLower(f: Forks, g: Forks, b: Block, c: Block, c': Block)
    requires WellNumbered(b) && Grows(f, g)
    requires MissingBelow(b, c) && KnownFrom(f, b, c.number) && IsKnown(g, c.parentHash)
    requires MissingBelow(b, c') && !IsKnown(g, c'.parentHash)
    ensures c'.number < c.number
  {
    PositionsAreNumbers(b);
    var p, p' := c.parentHash.block, c'.parentHash.block;
    assert p'.number >= c.number ==> IsKnown(f, Digest(p'));
    assert p'.number == p.number ==> p' == p;
  }

  lemma SameKnown(f: Forks, g: Forks, b: Block, number: int)
    requires KnownFrom(f, b, number) && Grows(f, g)
    ensures KnownFrom(g, b, number)
  {
  }

  /** The search that was answered is replaced by the next one. */
  lemma NextPending(f: Forks, asked: Forks, g: Forks, b: Block, c: Block, c': Block)
    requires Walked(asked, g, b, Some(c')) && asked.queries == f.queries
    requires Pending(f, b, c) && c'.number < c.number
    ensures Pending(CloseQuery(g, Query(c, b)), b, c')
  {
    hide KnownFrom, MissingBelow, IsKnown;
    SameKnown(g, CloseQuery(g, Query(c, b)), b, c'.number);
  }

  lemma WalkedAdvances(f: Forks, asked: Forks, g: Forks, b: Block, c: Block, gap: Option<Block>, served: nat)
    requires Walked(asked, g, b, gap) && asked.queries == f.queries && Grows(f, g) && IsKnown(g, c.parentHash)
    requires Pending(f, b, c) && served + c.number <= b.number && WellNumbered(b)
    ensures CatchingUp(CloseQuery(g, Query(c, b)), b, served + 1)
  {
    NumberedAbove(b, c.parentHash.block);
    var next := CloseQuery(g, Query(c, b));
    match gap {
      case None =>
        hide KnownFrom, Grows, Ancestors;
        assert Quiet(next, b);
      case Some(c') =>
        NextIsLower(f, g, b, c, c');
        NextPending(f, asked, g, b, c, c');
        hide Pending, Walked, Grows, KnownFrom, Ancestors;
        assert Searching(next, b, served + 1);
    }
  }

  lemma WalkAfterAnswer(f: Forks, b: Block, p: Block) returns (gap: Option<Block>)
    requires StrongInv(f) && WellNumbered(b) && WellNumbered(p)
    ensures Wf(f) && Wf(AddBlock(f, p))
    ensures var asked := AddBlock(f, p);
            var walked := AddBlockAndAncestors(asked, b);
            && asked.queries == f.queries && walked.error == None
            && Walked(asked, walked.state, b, gap)
            && Grows(f, walked.state) && IsKnown(walked.state, Digest(p))
  {
    hide FirstHighest, ClosedBut, Numbered, HighestIsMaximal, Walked, AddBlockAndAncestors, FindGap, TipRises,
      WellNumbered;
    var asked := AddBlock(f, p);
    AddBlockKeepsStrong(f, p);
    AddBlockKeeps(f, p);
    WalkFrom(asked, b);
    gap := FindGap(AddBlock(asked, b), b).value;
    GrowsTransitive(f, asked, AddBlockAndAncestors(asked, b).state);
  }

  /** The block asked for, as the answer to the open search: one less to go, or done. */
  lemma AnswerAdvances(o: Oracle, f: Forks, b: Block, c: Block, served: nat)
    requires StrongInv(f) && WellNumbered(b) && AncestorsMeet(o, b)
    requires Pending(f, b, c) && served + c.number <= b.number
    ensures CatchingUp(HandleAnswer(o, f, Query(c, b), Some(c.parentHash.block)), b, served + 1)
  {
    hide StrongInv, Walked, CatchingUp, AddBlockAndAncestors, Keyed, Grows, AncestorsMeet, KnownFrom, Ancestors,
      HandleAnswer, CloseQuery, AddBlock, WellNumbered, IsKnown;
    var p := c.parentHash.block;
    AncestorMeets(o, b, p);
    AncestorNumbers(b, p);
    var gap := WalkAfterAnswer(f, b, p);
    AdmittedAnswer(o, f, Query(c, b), p);
    WalkedAdvances(f, AddBlock(f, p), AddBlockAndAncestors(AddBlock(f, p), b).state, b, c, gap, served);
  }

  lemma NumberedAbove(b: Block, p: Block)
    requires WellNumbered(b) && p in Ancestors(b) && p != GENESIS
    ensures p.number >= 1
  {
    WellNumberedPositions(b);
    AncestorNumbers(b, p);
    if p.number == 0 {
      WellNumberedZero(p);
    }
  }

  lemma AncestorMeets(o: Oracle, b: Block, p: Block)
    requires WellNumbered(b) && AncestorsMeet(o, b) && p in Ancestors(b) && p != GENESIS
    ensures o.meets(Digest(p))
  {
    WellNumberedPositions(b);
  }

  /** Whatever loses nothing and leaves the searches for `b` alone does not set the catch-up back. */
  lemma OthersKeepCatchingUp(f: Forks, g: Forks, b: Block, served: nat)
    requires CatchingUp(f, b, served) && Grows(f, g)
    requires forall q: Query :: q.block == b ==> g.queries[q] == f.queries[q]
    ensures CatchingUp(g, b, served)
  {
    if Quiet(f, b) && Digest(b) in f.blocks {
      assert Quiet(g, b);
    } else {
      var c :| Pending(f, b, c) && served + c.number <= b.number;
      assert Pending(g, b, c);
    }
  }

  lemma OtherBlockKeepsQueries(f: Forks, d: Block)
    requires ForkInv(f)
    ensures forall q: Query :: q.block != d ==> AddBlockAndAncestors(f, d).state.queries[q] == f.queries[q]
  {
    hide FirstHighest, ClosedBut, Keyed, FindGap, ConfirmBlockAndAncestors;
    AddBlockKeeps(f, d);
    FindGapNeverRaises(AddBlock(f, d), d);
    if FindGap(AddBlock(f, d), d) == Ok(None) {
      ConfirmKeepsQueries(AddBlock(f, d), d);
    }
  }

  lemma OtherAnswerKeepsQueries(o: Oracle, f: Forks, q: Query, reply: Option<Block>)
    requires ForkInv(f)
    ensures forall r: Query :: r.block != q.block ==> HandleAnswer(o, f, q, reply).queries[r] == f.queries[r]
  {
    hide FirstHighest, ClosedBut, Keyed, AddBlockAndAncestors;
    if reply.Some? {
      AddBlockKeeps(f, reply.value);
      OtherBlockKeepsQueries(AddBlock(f, reply.value), q.block);
    }
  }

  // ----- Over a run -----

  /** `b` is not gossiped again, and its search does not time out. */
  predicate Undropped(e: Event, b: Block) {
    match e
    case NewBlock(d) => d != b
    case Answer(q, None) => q.block != b
    case _ => true
  }

  /** The event answers the open search for `b` with the block it asks for. */
  predicate Serves(f: Forks, e: Event, b: Block) {
    && e.Answer? && e.query in f.queries && e.query.block == b
    && e.reply.Some? && e.query.cur.parentHash == Digest(e.reply.value)
  }

  function One(c: bool): nat {
    if c then 1 else 0
  }

  /** How many events of `after` serve the search for `b`, in a run that began with `before`. */
  function Served(o: Oracle, before: seq<Event>, after: seq<Event>, b: Block): nat
    decreases |after|
  {
    if after == [] then 0 else
    var front := after[..|after| - 1];
    Served(o, before, front, b) + One(Serves(Run(o, before + front).forks, after[|after| - 1], b))
  }

  lemma AnswerCatchesUp(o: Oracle, f: Forks, q: Query, reply: Option<Block>, b: Block, served: nat)
    requires StrongInv(f) && WellNumbered(b) && AncestorsMeet(o, b) && CatchingUp(f, b, served)
    requires q in f.queries && (q.block == b ==> reply.Some?)
    ensures CatchingUp(HandleAnswer(o, f, q, reply), b, served + One(Serves(f, Answer(q, reply), b)))
  {
    hide FirstHighest, ClosedBut, Keyed, Numbered, HighestIsMaximal, AddBlockAndAncestors, TipRises, AncestorsMeet;
    if q.block != b {
      HandleAnswerKeeps(o, f, q, reply);
      OtherAnswerKeepsQueries(o, f, q, reply);
      OthersKeepCatchingUp(f, HandleAnswer(o, f, q, reply), b, served);
    } else {
      var c :| Pending(f, b, c) && served + c.number <= b.number;
      assert q == Query(c, b);
      if c.parentHash == Digest(reply.value) {
        AnswerAdvances(o, f, b, c, served);
      }
    }
  }

  lemma MinedKeepsCatchingUp(o: Oracle, n: Node, nonce: nat, b: Block, served: nat)
    requires NodeInv(o, n) && CatchingUp(n.forks, b, served)
    ensures CatchingUp(MinedStep(o, n, nonce).forks, b, served)
  {
    hide FirstHighest, ClosedBut, Keyed, FindGap, CatchingUp, Holds, ConfirmBlockAndAncestors;
    if n.candidate.Some? {
      var d := n.candidate.value.(nonce := nonce);
      ProduceKeeps(n.forks, d);
      ProduceKeepsQueries(n.forks, d);
      OthersKeepCatchingUp(n.forks, ConfirmBlockAndAncestors(n.forks, d).state, b, served);
    }
  }

  lemma ProduceKeepsQueries(f: Forks, d: Block)
    requires ForkInv(f) && d.parentHash in f.blocks
    ensures ConfirmBlockAndAncestors(f, d).state.queries == f.queries
  {
    hide FirstHighest, ClosedBut;
    if d.number != 0 && !IsConfirmed(f, Digest(d)) {
      assert FindGap(f, GetParent(f, d).value) == Ok(None);
    }
    ConfirmKeepsQueries(f, d);
  }

  lemma NewBlockKeepsCatchingUp(o: Oracle, f: Forks, d: Block, b: Block, served: nat)
    requires ForkInv(f) && CatchingUp(f, b, served) && d != b
    ensures CatchingUp(HandleNewBlock(o, f, d).state, b, served)
  {
    hide FirstHighest, ClosedBut, Keyed, CatchingUp, AddBlockAndAncestors;
    HandleNewBlockKeeps(o, f, d);
    OtherBlockKeepsQueries(f, d);
    OthersKeepCatchingUp(f, HandleNewBlock(o, f, d).state, b, served);
  }

  lemma StepCatchesUp(o: Oracle, n: Node, e: Event, b: Block, served: nat)
    requires StrongNodeInv(o, n) && EventWellNumbered(e) && Undropped(e, b)
    requires WellNumbered(b) && AncestorsMeet(o, b) && CatchingUp(n.forks, b, served)
    ensures CatchingUp(Step(o, n, e).forks, b, served + One(Serves(n.forks, e, b)))
  {
    hide FirstHighest, ClosedBut, Keyed, Numbered, HighestIsMaximal, HeadBelowTip, IndexInv, CatchingUp, AncestorsMeet,
      HandleNewBlock, HandleAnswer, StartMiningStep, MinedStep;
    match e {
      case NewBlock(d) => NewBlockKeepsCatchingUp(o, n.forks, d, b, served);
      case Answer(q, reply) =>
        if q in n.forks.queries {
          AnswerCatchesUp(o, n.forks, q, reply, b, served);
        }
      case StartMining(coinbase) => MiningKeepsForks(o, n, coinbase);
      case Mined(nonce) => MinedKeepsCatchingUp(o, n, nonce, b, served);
      case _ =>
    }
  }

  lemma {:induction false} RunCatchesUp(o: Oracle, before: seq<Event>, after: seq<Event>, b: Block)
    requires forall e :: e in before ==> EventWellNumbered(e)
    requires forall e :: e in after ==> EventWellNumbered(e) && Undropped(e, b)
    requires WellNumbered(b) && AncestorsMeet(o, b) && CatchingUp(Run(o, before).forks, b, 0)
    ensures CatchingUp(Run(o, before + after).forks, b, Served(o, before, after, b))
    decreases |after|
  {
    hide CatchingUp, AncestorsMeet, EventWellNumbered, Undropped, Step, StrongNodeInv, Serves, HighestIsMaximal,
      FirstHighest, Run, WellNumbered;
    if after == [] {
      assert before + after == before;
    } else {
      var front, last := after[..|after| - 1], after[|after| - 1];
      RunCatchesUp(o, before, front, b);
      assert before + after == before + front + [last];
      RunMore(o, before + front, last);
      assert last in after;
      WellNumberedRuns(o, before + front);
      StepCatchesUp(o, Run(o, before + front), last, b, Served(o, before, front, b));
    }
  }

  /** The count. A block of number N >= 1 arrives while no search for it is open, is not gossiped again, and its search
      never times out; anything else happens between the answers. At most N - 1 answers serve it. As long as it is not
      over, exactly one search is open and asks for a missing ancestor; once it is over, or N - 1 answers have come,
      the block and all its ancestors are stored. */
  lemma CatchesUpAmidOtherEvents(o: Oracle, before: seq<Event>, b: Block, after: seq<Event>)
    requires forall e :: e in before ==> EventWellNumbered(e)
    requires forall e :: e in after ==> EventWellNumbered(e) && Undropped(e, b)
    requires WellNumbered(b) && b.number >= 1 && AncestorsMeet(o, b) && Quiet(Run(o, before).forks, b)
    ensures var arrived := before + [NewBlock(b)];
            var f := Run(o, arrived + after).forks;
            var served := Served(o, arrived, after, b);
            && served <= b.number - 1
            && (Quiet(f, b) || Searching(f, b, served))
            && (Quiet(f, b) || served == b.number - 1 ==> ChainStored(f, Ancestors(b)))
  {
    hide AncestorsMeet, EventWellNumbered, Undropped, Step, StrongNodeInv, Served, StrongInv, ForkInv, Pending,
      MissingBelow, Ancestors, CatchingUp;
    var arrived := before + [NewBlock(b)];
    assert arrived[..|before|] == before;
    Arrived(o, before, b);
    forall e | e in arrived ensures EventWellNumbered(e) {
      NewBlockWellNumbered(b);
    }
    forall e | e in arrived + after ensures EventWellNumbered(e) {}
    RunCatchesUp(o, arrived, after, b);
    WellNumberedRuns(o, arrived + after);
    CaughtUp(o, Run(o, arrived + after), b, Served(o, arrived, after, b));
  }

  lemma NewBlockWellNumbered(b: Block)
    requires WellNumbered(b)
    ensures EventWellNumbered(NewBlock(b))
  {
  }

  lemma Arrived(o: Oracle, before: seq<Event>, b: Block)
    requires forall e :: e in before ==> EventWellNumbered(e)
    requires WellNumbered(b) && b.number >= 1 && AncestorsMeet(o, b) && Quiet(Run(o, before).forks, b)
    ensures CatchingUp(Run(o, before + [NewBlock(b)]).forks, b, 0)
  {
    hide CatchingUp, EventWellNumbered, StrongInv, HandleNewBlock, HeadBelowTip, Ancestors, NodeInv, Quiet, Keyed, Run;
    RunMore(o, before, NewBlock(b));
    WellNumberedRuns(o, before);
    WellNumberedPositions(b);
    assert Ancestors(b)[b.number] == b;
    ArrivalStarts(o, Run(o, before).forks, b);
  }

  lemma CaughtUp(o: Oracle, n: Node, b: Block, served: nat)
    requires StrongNodeInv(o, n) && WellNumbered(b) && CatchingUp(n.forks, b, served)
    ensures served <= b.number - 1
    ensures Quiet(n.forks, b) || Searching(n.forks, b, served)
    ensures Quiet(n.forks, b) || served == b.number - 1 ==> ChainStored(n.forks, Ancestors(b))
  {
    hide StrongInv, HeadBelowTip, Ancestors, KnownFrom, IndexInv;
    var f := n.forks;
    if Quiet(f, b) && Digest(b) in f.blocks {
      StoredWithAncestry(f, b);
    } else {
      var c :| Pending(f, b, c) && served + c.number <= b.number;
      NumberedAbove(b, c.parentHash.block);
      assert Query(c, b) in f.queries;
    }
  }

  lemma StoredWithAncestry(f: Forks, b: Block)
    requires StrongInv(f) && Digest(b) in f.blocks
    ensures ChainStored(f, Ancestors(b))
  {
    AncestryStored(f, b);
  }

  // ----- Over every run, with the block gossiped any number of times -----

  /** Every open search for `b` asks for an ancestor of `b`. */
  ghost predicate SearchesSound(f: Forks, b: Block) {
    forall q :: q in f.queries && q.block == b ==> MissingBelow(b, q.cur)
  }

  /** `b` is stored or still searched for. */
  ghost predicate Sought(f: Forks, b: Block) {
    SearchesSound(f, b) && (Quiet(f, b) ==> Digest(b) in f.blocks)
  }

  lemma WalkedIsSought(f: Forks, g: Forks, b: Block, gap: Option<Block>)
    requires Walked(f, g, b, gap) && SearchesSound(f, b)
    ensures Sought(g, b)
  {
    hide MissingBelow, KnownFrom;
    if gap.Some? {
      assert Query(gap.value, b) in g.queries;
    }
  }

  /** The walk resumed by an answer opens its next search before the answered one is closed. */
  lemma WalkedAfterAnswerIsSought(f: Forks, asked: Forks, g: Forks, b: Block, q: Query, gap: Option<Block>)
    requires Walked(asked, g, b, gap) && asked.queries == f.queries && SearchesSound(f, b) && q in f.queries
    ensures Sought(CloseQuery(g, q), b)
  {
    hide MissingBelow, KnownFrom;
    if gap.Some? {
      assert Query(gap.value, b) in CloseQuery(g, q).queries;
    }
  }

  lemma OthersKeepSought(f: Forks, g: Forks, b: Block)
    requires Grows(f, g) && forall q: Query :: q.block == b ==> g.queries[q] == f.queries[q]
    ensures SearchesSound(f, b) ==> SearchesSound(g, b)
    ensures Sought(f, b) ==> Sought(g, b)
  {
    hide MissingBelow, TipRises;
    assert forall q: Query :: q.block == b ==> (q in g.queries <==> q in f.queries);
  }

  lemma NewBlockKeepsSought(o: Oracle, f: Forks, d: Block, b: Block)
    requires StrongInv(f) && WellNumbered(b) && SearchesSound(f, b)
    ensures var g := HandleNewBlock(o, f, d).state;
            && SearchesSound(g, b)
            && (Sought(f, b) || (d == b && o.meets(Digest(b))) ==> Sought(g, b))
  {
    hide FirstHighest, ClosedBut, Numbered, HighestIsMaximal, AddBlockAndAncestors, FindGap, Walked, Quiet,
      WellNumbered, TipRises;
    if d != b {
      HandleNewBlockKeeps(o, f, d);
      OtherBlockKeepsQueries(f, d);
      OthersKeepSought(f, HandleNewBlock(o, f, d).state, b);
    } else if o.meets(Digest(b)) {
      WalkFrom(f, b);
      WalkedIsSought(f, AddBlockAndAncestors(f, b).state, b, FindGap(AddBlock(f, b), b).value);
    }
  }

  /** An answer to a search for `b` that is not admitted leaves it open or, at worst, closes it. */
  lemma RefusedAnswer(o: Oracle, f: Forks, q: Query, reply: Option<Block>)
    requires Wf(f)
    requires reply.Some? ==> q.cur.parentHash != Digest(reply.value) || q.cur.number != reply.value.number + 1
                             || !o.meets(Digest(reply.value))
    ensures HandleAnswer(o, f, q, reply)
            == if reply.Some? && q.cur.parentHash != Digest(reply.value) then f else CloseQuery(f, q)
  {
  }

  lemma OwnAnswerKeepsSought(o: Oracle, f: Forks, q: Query, reply: Option<Block>, b: Block)
    requires StrongInv(f) && WellNumbered(b) && SearchesSound(f, b) && q in f.queries && q.block == b
    requires reply.Some? ==> WellNumbered(reply.value)
    ensures var g := HandleAnswer(o, f, q, reply);
            && SearchesSound(g, b)
            && (Sought(f, b) && AncestorsMeet(o, b) && reply.Some? ==> Sought(g, b))
  {
    hide StrongInv, Walked, AddBlockAndAncestors, Keyed, Grows, HandleAnswer, AddBlock, WellNumbered, IsKnown,
      Ancestors, AncestorsMeet, Quiet;
    StrongIsWf(f);
    if reply.Some? && q.cur.parentHash == Digest(reply.value) && q.cur.number == reply.value.number + 1
       && o.meets(Digest(reply.value)) {
      var gap := WalkAfterAnswer(f, b, reply.value);
      AdmittedAnswer(o, f, q, reply.value);
      var asked := AddBlock(f, reply.value);
      WalkedAfterAnswerIsSought(f, asked, AddBlockAndAncestors(asked, b).state, b, q, gap);
    } else {
      RefusedAnswer(o, f, q, reply);
      if AncestorsMeet(o, b) && reply.Some? && q.cur.parentHash == Digest(reply.value) {
        AncestorMeets(o, b, reply.value);
        assert false;
      }
    }
  }

  lemma StrongIsWf(f: Forks)
    requires StrongInv(f)
    ensures Wf(f)
  {
  }

  /** Not a timeout of a search for `b`. */
  predicate Unexpired(e: Event, b: Block) {
    match e
    case Answer(q, None) => q.block != b
    case _ => true
  }

  lemma StepKeepsSought(o: Oracle, n: Node, e: Event, b: Block)
    requires StrongNodeInv(o, n) && EventWellNumbered(e) && WellNumbered(b) && SearchesSound(n.forks, b)
    ensures SearchesSound(Step(o, n, e).forks, b)
    ensures Sought(n.forks, b) && AncestorsMeet(o, b) && Unexpired(e, b) ==> Sought(Step(o, n, e).forks, b)
  {
    hide FirstHighest, ClosedBut, Keyed, Numbered, HighestIsMaximal, HeadBelowTip, IndexInv, AncestorsMeet,
      SearchesSound, Quiet, HandleNewBlock, HandleAnswer, StartMiningStep, ConfirmBlockAndAncestors, WellNumbered,
      TipRises;
    match e {
      case NewBlock(d) => NewBlockKeepsSought(o, n.forks, d, b);
      case Answer(q, reply) =>
        if q in n.forks.queries && q.block == b {
          OwnAnswerKeepsSought(o, n.forks, q, reply, b);
        } else if q in n.forks.queries {
          HandleAnswerKeeps(o, n.forks, q, reply);
          OtherAnswerKeepsQueries(o, n.forks, q, reply);
          OthersKeepSought(n.forks, HandleAnswer(o, n.forks, q, reply), b);
        }
      case StartMining(coinbase) => MiningKeepsForks(o, n, coinbase);
      case Mined(nonce) =>
        if n.candidate.Some? {
          var d := n.candidate.value.(nonce := nonce);
          ProduceKeeps(n.forks, d);
          ProduceKeepsQueries(n.forks, d);
          OthersKeepSought(n.forks, ConfirmBlockAndAncestors(n.forks, d).state, b);
        }
      case _ =>
    }
  }

  lemma {:induction false} SearchesAlwaysSound(o: Oracle, events: seq<Event>, b: Block)
    requires WellNumbered(b) && forall e :: e in events ==> EventWellNumbered(e)
    ensures SearchesSound(Run(o, events).forks, b)
    decreases |events|
  {
    hide EventWellNumbered, Step, StrongNodeInv, MissingBelow;
    if events != [] {
      var front := events[..|events| - 1];
      SearchesAlwaysSound(o, front, b);
      WellNumberedRuns(o, front);
      StepKeepsSought(o, Run(o, front), events[|front|], b);
    }
  }

  lemma {:induction false} StaysSought(o: Oracle, before: seq<Event>, after: seq<Event>, b: Block)
    requires WellNumbered(b) && AncestorsMeet(o, b) && Sought(Run(o, before).forks, b)
    requires forall e :: e in before ==> EventWellNumbered(e)
    requires forall e :: e in after ==> EventWellNumbered(e) && Unexpired(e, b)
    ensures Sought(Run(o, before + after).forks, b)
    decreases |after|
  {
    hide EventWellNumbered, Unexpired, AncestorsMeet, Step, StrongNodeInv, SearchesSound, Quiet, HighestIsMaximal,
      FirstHighest, Run, WellNumbered;
    if after == [] {
      assert before + after == before;
    } else {
      var front, last := after[..|after| - 1], after[|after| - 1];
      StaysSought(o, before, front, b);
      assert before + after == before + front + [last];
      RunMore(o, before + front, last);
      assert last in after;
      WellNumberedRuns(o, before + front);
      StepKeepsSought(o, Run(o, before + front), last, b);
    }
  }

  /** Orphan catch-up over every run of well-numbered blocks in which no search for the block times out after it
      arrived, however often it is gossiped and whatever searches were open: as long as some search for it is open,
      each asks for an ancestor; once none is, the block and all its ancestors are stored. */
  lemma CatchesUpInEveryRun(o: Oracle, before: seq<Event>, b: Block, after: seq<Event>)
    requires forall e :: e in before ==> EventWellNumbered(e)
    requires forall e :: e in after ==> EventWellNumbered(e) && Unexpired(e, b)
    requires WellNumbered(b) && AncestorsMeet(o, b) && o.meets(Digest(b))
    ensures var f := Run(o, before + [NewBlock(b)] + after).forks;
            && (forall q :: q in f.queries && q.block == b ==> MissingBelow(b, q.cur))
            && (Quiet(f, b) ==> ChainStored(f, Ancestors(b)))
  {
    hide EventWellNumbered, Unexpired, AncestorsMeet, Step, StrongInv, HeadBelowTip, NodeInv, Quiet, MissingBelow,
      ChainStored, Run, Ancestors;
    var arrived := before + [NewBlock(b)];
    ArrivalIsSought(o, before, b);
    NewBlockWellNumbered(b);
    assert forall e :: e in arrived ==> e in before || e == NewBlock(b);
    StaysSought(o, arrived, after, b);
    forall e | e in arrived + after ensures EventWellNumbered(e) {}
    WellNumberedRuns(o, arrived + after);
    if Quiet(Run(o, arrived + after).forks, b) {
      StoredWithAncestry(Run(o, arrived + after).forks, b);
    }
  }

  lemma ArrivalIsSought(o: Oracle, before: seq<Event>, b: Block)
    requires forall e :: e in before ==> EventWellNumbered(e)
    requires WellNumbered(b) && o.meets(Digest(b))
    ensures Sought(Run(o, before + [NewBlock(b)]).forks, b)
  {
    hide EventWellNumbered, Sought, StrongInv, HandleNewBlock, HeadBelowTip, NodeInv, SearchesSound, Keyed, Run;
    RunMore(o, before, NewBlock(b));
    WellNumberedRuns(o, before);
    SearchesAlwaysSound(o, before, b);
    NewBlockKeepsSought(o, Run(o, before).forks, b, b);
  }
}
