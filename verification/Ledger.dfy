/** The state transition as functions on values: one transaction, one block, a whole chain, and the
    greedy selection a block builder makes. The class `Execution.Blockchain` is proved against them. */
module Ledger {
  import opened Types

  const BLOCK_REWARD: int := 10000
  const MAX_TRANSACTIONS_PER_BLOCK: nat := 10

  /** A snapshot of the state: what `save_to_disk` writes and `load_from_disk` reads. */
  datatype StateOf<+H> =
    State(number: int, hash: H, balances: map<bytes, int>, nonces: map<bytes, int>)

  type State = StateOf<Hash>

  datatype TxOutcome = Applied | Rejected | Raised

  function Lookup(m: map<bytes, int>, a: bytes): int {
    if a in m then m[a] else 0
  }

  /** `dict.setdefault(a, 0)`. */
  function Touch(m: map<bytes, int>, a: bytes): (r: map<bytes, int>)
    ensures a in r && forall x :: Lookup(r, x) == Lookup(m, x)
  {
    if a in m then m else m[a := 0]
  }

  function ApplyTx(o: Oracle, tx: Transaction, s: State): (TxOutcome, State) {
    match o.signature(tx)
    case Raises => (Raised, s)
    case Refuses => (Rejected, s)
    case Accepts =>
      if tx.amount < 0 then (Rejected, s) else
      var balances := Touch(Touch(s.balances, tx.sender), tx.receiver);
      var nonces := Touch(s.nonces, tx.sender);
      var touched := s.(balances := balances, nonces := nonces);
      if nonces[tx.sender] != tx.nonce || balances[tx.sender] < tx.amount then (Rejected, touched) else
      var paid := balances[tx.sender := balances[tx.sender] - tx.amount];
      (Applied, touched.(balances := paid[tx.receiver := paid[tx.receiver] + tx.amount],
                         nonces := nonces[tx.sender := nonces[tx.sender] + 1]))
  }

  function ApplyTxs(o: Oracle, txs: seq<Transaction>, s: State): Result<State> {
    if txs == [] then Ok(s) else
    match ApplyTx(o, txs[0], s)
    case (Applied, s') => ApplyTxs(o, txs[1..], s')
    case (Rejected, _) => Err(InvalidTransaction)
    case (Raised, _) => Err(SignatureRaised)
  }

  /** Where applying transactions in turn leaves the state: after the first that is not applied, or after all. */
  function TxsLeave(o: Oracle, txs: seq<Transaction>, s: State): State {
    if txs == [] then s else
    var (outcome, s') := ApplyTx(o, txs[0], s);
    if outcome.Applied? then TxsLeave(o, txs[1..], s') else s'
  }

  function ApplyBlock(o: Oracle, b: Block, s: State): Result<State> {
    if b.number != s.number + 1 then Err(WrongNumber)
    else if b.parentHash != s.hash then Err(WrongParent)
    else if !o.meets(Digest(b)) then Err(NoDifficulty)
    else
      var s' :- ApplyTxs(o, b.transactions, s);
      var reward := Lookup(s'.balances, b.coinbase) + BLOCK_REWARD;
      Ok(State(b.number, Digest(b), s'.balances[b.coinbase := reward], s'.nonces))
  }

  /** `load_from_disk`: a missing snapshot raises, and one that was saved for another number fails the assertion. */
  function LoadSnapshot(states: map<int, State>, number: int): (r: Result<State>)
    ensures r.Ok? ==> r.value.number == number
  {
    if number !in states then Err(StateNotFound)
    else if states[number].number != number then Err(WrongSnapshot)
    else Ok(states[number])
  }

  const GENESIS_STATE: State := State(0, Digest(GENESIS), map[], map[])

  /** The reference meaning of a chain: start from genesis and apply every later block. */
  function Replay(o: Oracle, chain: seq<Block>): Result<State>
    decreases |chain|
  {
    if |chain| <= 1 then (if chain == [GENESIS] then Ok(GENESIS_STATE) else Err(NotGenesis))
    else
      var s :- Replay(o, chain[..|chain| - 1]);
      ApplyBlock(o, chain[|chain| - 1], s)
  }

  /** The difficulty can be met: every block has a nonce that does. */
  ghost predicate Minable(o: Oracle) {
    forall b: Block :: exists nonce :: o.meets(Digest(b.(nonce := nonce)))
  }

  // ----- What a replay that succeeds says about its chain -----

  lemma {:induction false} ReplayShape(o: Oracle, chain: seq<Block>)
    requires Replay(o, chain).Ok?
    ensures |chain| >= 1 && chain[0] == GENESIS && Linked(chain)
    ensures forall i :: 0 <= i < |chain| ==> chain[i].number == i
    ensures Replay(o, chain).value.number == |chain| - 1
    ensures Replay(o, chain).value.hash == Digest(chain[|chain| - 1])
    ensures Ancestors(chain[|chain| - 1]) == chain
    decreases |chain|
  {
    hide ApplyTxs, Ancestors;
    if |chain| > 1 {
      ReplayShape(o, chain[..|chain| - 1]);
      assert chain[0].parentHash.Raw?;
    }
    LinkedIsAncestors(chain);
  }

  lemma {:induction false} ReplayPrefix(o: Oracle, chain: seq<Block>, k: nat)
    requires Replay(o, chain).Ok? && 1 <= k <= |chain|
    ensures Replay(o, chain[..k]).Ok?
    decreases |chain|
  {
    if k < |chain| {
      ReplayPrefix(o, chain[..|chain| - 1], k);
      assert chain[..|chain| - 1][..k] == chain[..k];
    } else {
      assert chain[..k] == chain;
    }
  }

  /** What an accepted transaction list contains: correctly signed transactions of amounts that are not negative. */
  predicate Accepted(o: Oracle, txs: seq<Transaction>) {
    forall i :: 0 <= i < |txs| ==> o.signature(txs[i]).Accepts? && txs[i].amount >= 0
  }

  lemma {:induction false} ApplyTxsAccepted(o: Oracle, txs: seq<Transaction>, s: State)
    requires ApplyTxs(o, txs, s).Ok?
    ensures Accepted(o, txs)
  {
    if txs != [] {
      ApplyTxsAccepted(o, txs[1..], ApplyTx(o, txs[0], s).1);
      assert forall i :: 0 < i < |txs| ==> txs[i] == txs[1..][i - 1];
    }
  }

  /** Every block after genesis of a chain that replays meets the difficulty and holds accepted transactions only. */
  lemma {:induction false} ReplayValidates(o: Oracle, chain: seq<Block>)
    requires Replay(o, chain).Ok?
    ensures forall i :: 0 < i < |chain| ==> o.meets(Digest(chain[i])) && Accepted(o, chain[i].transactions)
    decreases |chain|
  {
    hide ApplyTxs, Accepted;
    var n := |chain| - 1;
    if n > 0 {
      ReplayValidates(o, chain[..n]);
      ApplyTxsAccepted(o, chain[n].transactions, Replay(o, chain[..n]).value);
      assert forall i :: 0 < i < n ==> chain[i] == chain[..n][i];
    }
  }

  // ----- One transaction after another -----

  /** A list applies when its front does and then its last transaction does; otherwise the first that does not
      decides the exception and what is left behind. */
  lemma {:induction false} ApplyTxsOneMore(o: Oracle, txs: seq<Transaction>, tx: Transaction, s: State)
    ensures ApplyTxs(o, [], s) == Ok(s) && TxsLeave(o, [], s) == s
    ensures match ApplyTxs(o, txs, s)
            case Err(e) => ApplyTxs(o, txs + [tx], s) == Err(e) && TxsLeave(o, txs + [tx], s) == TxsLeave(o, txs, s)
            case Ok(s') =>
              var (outcome, left) := ApplyTx(o, tx, s');
              && TxsLeave(o, txs, s) == s' && TxsLeave(o, txs + [tx], s) == left
              && ApplyTxs(o, txs + [tx], s)
                 == if outcome.Applied? then Ok(left)
                    else Err(if outcome.Rejected? then InvalidTransaction else SignatureRaised)
  {
    hide ApplyTx;
    var more := txs + [tx];
    if txs == [] {
      assert more[0] == tx && more[1..] == [];
    } else {
      assert more[0] == txs[0] && more[1..] == txs[1..] + [tx];
      if ApplyTx(o, txs[0], s).0.Applied? {
        ApplyTxsOneMore(o, txs[1..], tx, ApplyTx(o, txs[0], s).1);
      }
    }
  }

  /** A block is valid exactly when its number, parent and difficulty fit and its transactions apply in turn; the
      first of these that fails, in this order, decides the exception. A valid block gives its number and hash to the
      state and 10000 to its miner, on top of what the transactions did, and nothing else. */
  lemma ApplyBlockEffect(o: Oracle, b: Block, s: State)
    ensures ApplyBlock(o, b, s).Ok? <==>
            && b.number == s.number + 1 && b.parentHash == s.hash && o.meets(Digest(b))
            && ApplyTxs(o, b.transactions, s).Ok?
    ensures match ApplyBlock(o, b, s)
            case Err(e) =>
              e == if b.number != s.number + 1 then WrongNumber
                   else if b.parentHash != s.hash then WrongParent
                   else if !o.meets(Digest(b)) then NoDifficulty
                   else ApplyTxs(o, b.transactions, s).error
            case Ok(s') =>
              var t := ApplyTxs(o, b.transactions, s).value;
              && s'.number == b.number && s'.hash == Digest(b) && s'.nonces == t.nonces
              && s'.balances.Keys == t.balances.Keys + {b.coinbase}
              && forall a :: Lookup(s'.balances, a) == Lookup(t.balances, a) + If(a == b.coinbase, 10000)
  {
  }

  // ----- Absent means zero -----

  /** Equal for every reader of balances and nonces: an absent account and a zero one are the same. */
  ghost predicate Same(s: State, t: State) {
    && s.number == t.number
    && s.hash == t.hash
    && forall a :: Lookup(s.balances, a) == Lookup(t.balances, a) && Lookup(s.nonces, a) == Lookup(t.nonces, a)
  }

  function If(c: bool, x: int): int {
    if c then x else 0
  }

  /** What a transaction does to every account, seen by a reader, self-transfers included; and which accounts have an
      entry afterwards: a check that fails before the balances are looked at leaves the state alone, any other outcome
      gives both parties a balance and the sender a nonce. */
  lemma ApplyTxEffect(o: Oracle, tx: Transaction, s: State)
    ensures var (outcome, s') := ApplyTx(o, tx, s);
            && s'.number == s.number && s'.hash == s.hash
            && (outcome.Applied? <==>
                  && o.signature(tx).Accepts? && tx.amount >= 0
                  && tx.nonce == Lookup(s.nonces, tx.sender) && tx.amount <= Lookup(s.balances, tx.sender))
            && (outcome.Raised? <==> o.signature(tx).Raises?)
            && (!outcome.Applied? ==> Same(s', s))
            && (if o.signature(tx).Accepts? && tx.amount >= 0
                then s'.balances.Keys == s.balances.Keys + {tx.sender, tx.receiver}
                     && s'.nonces.Keys == s.nonces.Keys + {tx.sender}
                else s' == s)
            && (outcome.Applied? ==> forall a ::
                  && Lookup(s'.balances, a)
                     == Lookup(s.balances, a) + If(a == tx.receiver, tx.amount) - If(a == tx.sender, tx.amount)
                  && Lookup(s'.nonces, a) == Lookup(s.nonces, a) + If(a == tx.sender, 1))
  {
  }

  /** A transaction cannot tell such states apart. */
  lemma ApplyTxRespectsSame(o: Oracle, tx: Transaction, s: State, t: State)
    requires Same(s, t)
    ensures ApplyTx(o, tx, s).0 == ApplyTx(o, tx, t).0
    ensures Same(ApplyTx(o, tx, s).1, ApplyTx(o, tx, t).1)
    ensures !ApplyTx(o, tx, s).0.Applied? ==> Same(ApplyTx(o, tx, s).1, s)
  {
    ApplyTxEffect(o, tx, s);
    ApplyTxEffect(o, tx, t);
    assert Lookup(s.balances, tx.sender) == Lookup(t.balances, tx.sender);
    assert Lookup(s.nonces, tx.sender) == Lookup(t.nonces, tx.sender);
  }

  lemma {:induction false} ApplyTxsRespectsSame(o: Oracle, txs: seq<Transaction>, s: State, t: State)
    requires Same(s, t)
    ensures match ApplyTxs(o, txs, s)
            case Ok(s') => ApplyTxs(o, txs, t).Ok? && Same(s', ApplyTxs(o, txs, t).value)
            case Err(e) => ApplyTxs(o, txs, t) == Err(e)
  {
    if txs != [] {
      ApplyTxRespectsSame(o, txs[0], s, t);
      if ApplyTx(o, txs[0], s).0.Applied? {
        ApplyTxsRespectsSame(o, txs[1..], ApplyTx(o, txs[0], s).1, ApplyTx(o, txs[0], t).1);
      }
    }
  }

  // ----- Building a block -----

  /** What the selection loop ends with: the transactions taken, those evicted, how many of the
      snapshot it looked at, the working state, and whether a signature check raised. */
  datatype Selection =
    Selection(chosen: seq<Transaction>, evicted: seq<Transaction>, tried: nat, state: State, raised: bool)

  function Select(o: Oracle, pool: seq<Transaction>, s: State, room: nat): Selection {
    if pool == [] || room == 0 then Selection([], [], 0, s, false) else
    match ApplyTx(o, pool[0], s)
    case (Applied, s') =>
      var rest := Select(o, pool[1..], s', room - 1);
      rest.(chosen := [pool[0]] + rest.chosen, tried := rest.tried + 1)
    case (Rejected, s') =>
      var rest := Select(o, pool[1..], s', room);
      rest.(evicted := [pool[0]] + rest.evicted, tried := rest.tried + 1)
    case (Raised, s') => Selection([], [], 0, s', true)
  }

  /** A selection that has looked at `i` transactions, taken `chosen`, evicted `evicted` and reached `s` ends
      as the selection from the beginning does. */
  ghost predicate OnTheWay(o: Oracle, pool: seq<Transaction>, start: State, i: nat, chosen: seq<Transaction>,
                           evicted: seq<Transaction>, s: State)
    requires i <= |pool| && |chosen| <= MAX_TRANSACTIONS_PER_BLOCK
  {
    var rest := Select(o, pool[i..], s, MAX_TRANSACTIONS_PER_BLOCK - |chosen|);
    Select(o, pool, start, MAX_TRANSACTIONS_PER_BLOCK)
    == Selection(chosen + rest.chosen, evicted + rest.evicted, i + rest.tried, rest.state, rest.raised)
  }

  lemma NotStarted(o: Oracle, pool: seq<Transaction>, start: State)
    ensures OnTheWay(o, pool, start, 0, [], [], start)
  {
    assert pool[0..] == pool;
    var all := Select(o, pool, start, MAX_TRANSACTIONS_PER_BLOCK);
    assert [] + all.chosen == all.chosen && [] + all.evicted == all.evicted;
  }

  lemma OneMore(o: Oracle, pool: seq<Transaction>, start: State, i: nat, chosen: seq<Transaction>,
                evicted: seq<Transaction>, s: State)
    requires i < |pool| && |chosen| < MAX_TRANSACTIONS_PER_BLOCK
    requires OnTheWay(o, pool, start, i, chosen, evicted, s)
    ensures match ApplyTx(o, pool[i], s)
            case (Applied, s') => OnTheWay(o, pool, start, i + 1, chosen + [pool[i]], evicted, s')
            case (Rejected, s') => OnTheWay(o, pool, start, i + 1, chosen, evicted + [pool[i]], s')
            case (Raised, s') =>
              Select(o, pool, start, MAX_TRANSACTIONS_PER_BLOCK) == Selection(chosen, evicted, i, s', true)
  {
    hide ApplyTx;
    assert pool[i..][1..] == pool[i + 1..];
    var rest := Select(o, pool[i..], s, MAX_TRANSACTIONS_PER_BLOCK - |chosen|);
    if ApplyTx(o, pool[i], s).0.Applied? {
      assert chosen + rest.chosen == chosen + [pool[i]] + rest.chosen[1..];
    } else if ApplyTx(o, pool[i], s).0.Rejected? {
      assert evicted + rest.evicted == evicted + [pool[i]] + rest.evicted[1..];
    }
  }

  lemma Finished(o: Oracle, pool: seq<Transaction>, start: State, i: nat, chosen: seq<Transaction>,
                 evicted: seq<Transaction>, s: State)
    requires i <= |pool| && |chosen| <= MAX_TRANSACTIONS_PER_BLOCK
    requires OnTheWay(o, pool, start, i, chosen, evicted, s)
    requires i == |pool| || |chosen| == MAX_TRANSACTIONS_PER_BLOCK
    ensures Select(o, pool, start, MAX_TRANSACTIONS_PER_BLOCK) == Selection(chosen, evicted, i, s, false)
  {
    assert chosen + [] == chosen && evicted + [] == evicted;
  }

  /** The block template for a selection on top of `s`. */
  function Template(s: State, coinbase: bytes, chosen: seq<Transaction>): Block {
    Block(s.number + 1, 0, s.hash, coinbase, chosen)
  }

  /** `chosen` and `evicted` are what is left of `tried` when each element goes to one of them, in order. */
  ghost predicate Interleaved(tried: seq<Transaction>, chosen: seq<Transaction>, evicted: seq<Transaction>) {
    if tried == [] then chosen == [] && evicted == []
    else
      || (chosen != [] && chosen[0] == tried[0] && Interleaved(tried[1..], chosen[1..], evicted))
      || (evicted != [] && evicted[0] == tried[0] && Interleaved(tried[1..], chosen, evicted[1..]))
  }

  /** Some prefix of `chosen` leads from `s` to a state that rejects `tx`. */
  ghost predicate RejectedAfterSome(o: Oracle, tx: Transaction, chosen: seq<Transaction>, s: State) {
    exists k :: 0 <= k <= |chosen| && ApplyTxs(o, chosen[..k], s).Ok?
                && ApplyTx(o, tx, ApplyTxs(o, chosen[..k], s).value).0.Rejected?
  }

  lemma RejectedLater(o: Oracle, tx: Transaction, first: Transaction, chosen: seq<Transaction>, s: State)
    requires ApplyTx(o, first, s).0.Applied?
    requires RejectedAfterSome(o, tx, chosen, ApplyTx(o, first, s).1)
    ensures RejectedAfterSome(o, tx, [first] + chosen, s)
  {
    var s' := ApplyTx(o, first, s).1;
    var k :| 0 <= k <= |chosen| && ApplyTxs(o, chosen[..k], s').Ok?
             && ApplyTx(o, tx, ApplyTxs(o, chosen[..k], s').value).0.Rejected?;
    var longer := ([first] + chosen)[..k + 1];
    assert longer[0] == first && longer[1..] == chosen[..k];
    assert ApplyTxs(o, longer, s) == ApplyTxs(o, chosen[..k], s');
  }

  lemma RejectedInSame(o: Oracle, tx: Transaction, chosen: seq<Transaction>, s: State, t: State)
    requires Same(s, t) && RejectedAfterSome(o, tx, chosen, s)
    ensures RejectedAfterSome(o, tx, chosen, t)
  {
    var k :| 0 <= k <= |chosen| && ApplyTxs(o, chosen[..k], s).Ok?
             && ApplyTx(o, tx, ApplyTxs(o, chosen[..k], s).value).0.Rejected?;
    ApplyTxsRespectsSame(o, chosen[..k], s, t);
    ApplyTxRespectsSame(o, tx, ApplyTxs(o, chosen[..k], s).value, ApplyTxs(o, chosen[..k], t).value);
  }

  /** The selection is greedy and sound: it looks at a prefix of the pool, splits that prefix in order into
      chosen and evicted, stops early only when full or when a check raises, every chosen transaction
      applies in turn to the original state, and every evicted one was invalid when it was tried. */
  lemma {:induction false} SelectSound(o: Oracle, pool: seq<Transaction>, s: State, room: nat)
    ensures var r := Select(o, pool, s, room);
            && |r.chosen| <= room && r.tried <= |pool|
            && Interleaved(pool[..r.tried], r.chosen, r.evicted)
            && (r.tried == |pool| || |r.chosen| == room || r.raised)
            && (r.raised ==> r.tried < |pool| && o.signature(pool[r.tried]).Raises?)
            && ApplyTxs(o, r.chosen, s).Ok? && Same(ApplyTxs(o, r.chosen, s).value, r.state)
            && forall tx :: tx in r.evicted ==> RejectedAfterSome(o, tx, r.chosen, s)
    decreases |pool|
  {
    if pool == [] || room == 0 {
      return;
    }
    var r := Select(o, pool, s, room);
    var tx := pool[0];
    var (outcome, s') := ApplyTx(o, tx, s);
    if outcome.Raised? {
      return;
    }
    var rest := Select(o, pool[1..], s', if outcome.Applied? then room - 1 else room);
    SelectSound(o, pool[1..], s', if outcome.Applied? then room - 1 else room);
    assert pool[..r.tried][1..] == pool[1..][..rest.tried];
    if outcome.Applied? {
      assert r.chosen[1..] == rest.chosen;
      forall e | e in r.evicted ensures RejectedAfterSome(o, e, r.chosen, s) {
        RejectedLater(o, e, tx, rest.chosen, s);
      }
    } else {
      assert r.evicted[1..] == rest.evicted;
      ApplyTxRespectsSame(o, tx, s, s);
      ApplyTxsRespectsSame(o, r.chosen, s', s);
      forall e | e in r.evicted ensures RejectedAfterSome(o, e, r.chosen, s) {
        if e in rest.evicted {
          RejectedInSame(o, e, r.chosen, s', s);
        } else {
          assert r.chosen[..0] == [];
          assert ApplyTxs(o, r.chosen[..0], s) == Ok(s);
        }
      }
    }
  }

  /** The selection is greedy, one transaction at a time: after any part of the pool it looked at, the next
      transaction is chosen if it applies after those chosen so far and evicted if it is rejected then. With no room
      or no pool nothing is selected. */
  lemma {:induction false} SelectOneMore(o: Oracle, pool: seq<Transaction>, s: State, room: nat, i: nat)
    requires i < |pool| && i < Select(o, pool, s, room).tried
    ensures var r, next := Select(o, pool[..i], s, room), Select(o, pool[..i + 1], s, room);
            && r.tried == i && !r.raised && |r.chosen| < room
            && match ApplyTx(o, pool[i], r.state)
               case (Applied, s') => next == Selection(r.chosen + [pool[i]], r.evicted, i + 1, s', false)
               case (Rejected, s') => next == Selection(r.chosen, r.evicted + [pool[i]], i + 1, s', false)
               case (Raised, _) => false
    decreases |pool|
  {
    hide ApplyTx;
    var s', left := ApplyTx(o, pool[0], s).1, if ApplyTx(o, pool[0], s).0.Applied? then room - 1 else room;
    assert pool[..i + 1][0] == pool[0] && pool[..i + 1][1..] == pool[1..][..i];
    if i == 0 {
      assert pool[..0] == [];
    } else {
      SelectOneMore(o, pool[1..], s', left, i - 1);
      assert pool[..i][0] == pool[0] && pool[..i][1..] == pool[1..][..i - 1];
      assert pool[1..][i - 1] == pool[i];
    }
  }

  lemma {:induction false} SelectLooksAtPrefix(o: Oracle, pool: seq<Transaction>, s: State, room: nat)
    ensures var r := Select(o, pool, s, room);
            r.tried <= |pool| && (!r.raised ==> r == Select(o, pool[..r.tried], s, room))
    decreases |pool|
  {
    hide ApplyTx;
    if pool != [] && room > 0 && !ApplyTx(o, pool[0], s).0.Raised? {
      var s', left := ApplyTx(o, pool[0], s).1, if ApplyTx(o, pool[0], s).0.Applied? then room - 1 else room;
      SelectLooksAtPrefix(o, pool[1..], s', left);
      var r := Select(o, pool, s, room);
      assert pool[..r.tried][1..] == pool[1..][..r.tried - 1];
    }
  }

  /** Builder and validator agree: whatever the pool, the built block carries the selection on top of the state, at
      most ten transactions and fewer only when the pool was used up, and with any nonce that meets the difficulty it
      is accepted on the state it was built from. */
  lemma BuilderAgreesWithValidator(o: Oracle, s: State, pool: seq<Transaction>, coinbase: bytes, nonce: int)
    ensures var picked := Select(o, pool, s, MAX_TRANSACTIONS_PER_BLOCK);
            var b := Template(s, coinbase, picked.chosen);
            && b == Block(s.number + 1, 0, s.hash, coinbase, picked.chosen)
            && |b.transactions| <= 10
            && (|b.transactions| < 10 && !picked.raised ==> picked.tried == |pool|)
            && (o.meets(Digest(b.(nonce := nonce))) ==> ApplyBlock(o, b.(nonce := nonce), s).Ok?)
  {
    SelectSound(o, pool, s, MAX_TRANSACTIONS_PER_BLOCK);
  }

  /** The same for every nonce at once, about the result a builder returns. */
  lemma BuiltBlockIsValid(o: Oracle, s: State, pool: seq<Transaction>, coinbase: bytes)
    ensures var b := Template(s, coinbase, Select(o, pool, s, MAX_TRANSACTIONS_PER_BLOCK).chosen);
            forall nonce :: o.meets(Digest(b.(nonce := nonce))) ==> ApplyBlock(o, b.(nonce := nonce), s).Ok?
  {
    var b := Template(s, coinbase, Select(o, pool, s, MAX_TRANSACTIONS_PER_BLOCK).chosen);
    forall nonce | o.meets(Digest(b.(nonce := nonce))) ensures ApplyBlock(o, b.(nonce := nonce), s).Ok? {
      BuilderAgreesWithValidator(o, s, pool, coinbase, nonce);
    }
  }
}
