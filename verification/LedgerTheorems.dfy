/** What every chain that replays from genesis says about balances, nonces and supply. */
module LedgerTheorems {
  import opened Types
  import opened Ledger
  import opened Sums

  // ----- What an account did, read off a list of transactions or blocks -----

  function Received(txs: seq<Transaction>, a: bytes): int {
    if txs == [] then 0
    else Received(txs[..|txs| - 1], a) + If(txs[|txs| - 1].receiver == a, txs[|txs| - 1].amount)
  }

  function Sent(txs: seq<Transaction>, a: bytes): int {
    if txs == [] then 0
    else Sent(txs[..|txs| - 1], a) + If(txs[|txs| - 1].sender == a, txs[|txs| - 1].amount)
  }

  function SentCount(txs: seq<Transaction>, a: bytes): nat {
    if txs == [] then 0
    else SentCount(txs[..|txs| - 1], a) + if txs[|txs| - 1].sender == a then 1 else 0
  }

  function Mined(blocks: seq<Block>, a: bytes): nat {
    if blocks == [] then 0
    else Mined(blocks[..|blocks| - 1], a) + if blocks[|blocks| - 1].coinbase == a then 1 else 0
  }

  function Transactions(blocks: seq<Block>): seq<Transaction> {
    if blocks == [] then [] else Transactions(blocks[..|blocks| - 1]) + blocks[|blocks| - 1].transactions
  }

  // ----- The closed form -----

  lemma ApplyTxTotal(o: Oracle, tx: Transaction, s: State)
    requires ApplyTx(o, tx, s).0.Applied?
    ensures Total(ApplyTx(o, tx, s).1.balances) == Total(s.balances)
  {
    var once := Touch(s.balances, tx.sender);
    var balances := Touch(once, tx.receiver);
    var paid := balances[tx.sender := balances[tx.sender] - tx.amount];
    TotalUpdate(s.balances, tx.sender, 0);
    TotalUpdate(once, tx.receiver, 0);
    TotalUpdate(balances, tx.sender, balances[tx.sender] - tx.amount);
    TotalUpdate(paid, tx.receiver, paid[tx.receiver] + tx.amount);
  }

  /** The state is what the mined blocks and the transactions alone say it is. */
  ghost predicate Closed(s: State, txs: seq<Transaction>, mined: seq<Block>, supply: int) {
    && (forall a ::
          && Lookup(s.balances, a) == 10000 * Mined(mined, a) + Received(txs, a) - Sent(txs, a)
          && Lookup(s.balances, a) >= 0
          && Lookup(s.nonces, a) == SentCount(txs, a))
    && Total(s.balances) == supply
    && InNonceOrder(txs)
  }

  /** Every sender's transactions carry the nonces 0, 1, 2, ... in order. */
  ghost predicate InNonceOrder(txs: seq<Transaction>) {
    forall i :: 0 <= i < |txs| ==> txs[i].nonce == SentCount(txs[..i], txs[i].sender)
  }

  lemma InNonceOrderAppend(txs: seq<Transaction>, tx: Transaction)
    requires InNonceOrder(txs) && tx.nonce == SentCount(txs, tx.sender)
    ensures InNonceOrder(txs + [tx])
  {
    var more := txs + [tx];
    forall i | 0 <= i < |more| ensures more[i].nonce == SentCount(more[..i], more[i].sender) {
      if i < |txs| {
        assert more[..i] == txs[..i];
      } else {
        assert more[..i] == txs;
      }
    }
  }

  lemma ClosedTx(o: Oracle, tx: Transaction, s: State, txs: seq<Transaction>, mined: seq<Block>, supply: int)
    requires Closed(s, txs, mined, supply) && ApplyTx(o, tx, s).0.Applied?
    ensures Closed(ApplyTx(o, tx, s).1, txs + [tx], mined, supply)
  {
    ApplyTxEffect(o, tx, s);
    ApplyTxTotal(o, tx, s);
    var s' := ApplyTx(o, tx, s).1;
    var more := txs + [tx];
    assert more[..|more| - 1] == txs;
    InNonceOrderAppend(txs, tx);
    forall a ensures
        && Lookup(s'.balances, a) == 10000 * Mined(mined, a) + Received(more, a) - Sent(more, a)
        && Lookup(s'.balances, a) >= 0
        && Lookup(s'.nonces, a) == SentCount(more, a) {
      assert Lookup(s.balances, a) >= 0;
    }
  }

  lemma {:induction false} ClosedTxs(o: Oracle, more: seq<Transaction>, s: State, txs: seq<Transaction>,
                                     mined: seq<Block>, supply: int)
    requires Closed(s, txs, mined, supply) && ApplyTxs(o, more, s).Ok?
    ensures Closed(ApplyTxs(o, more, s).value, txs + more, mined, supply)
    decreases |more|
  {
    if more == [] {
      assert txs + more == txs;
    } else {
      ClosedTx(o, more[0], s, txs, mined, supply);
      ClosedTxs(o, more[1..], ApplyTx(o, more[0], s).1, txs + [more[0]], mined, supply);
      assert txs + [more[0]] + more[1..] == txs + more;
    }
  }

  lemma ClosedReward(s: State, s': State, txs: seq<Transaction>, mined: seq<Block>, b: Block, supply: int)
    requires Closed(s, txs, mined, supply)
    requires s'.balances == s.balances[b.coinbase := Lookup(s.balances, b.coinbase) + BLOCK_REWARD]
    requires s'.nonces == s.nonces
    ensures Closed(s', txs, mined + [b], supply + 10000)
  {
    TotalUpdate(s.balances, b.coinbase, Lookup(s.balances, b.coinbase) + BLOCK_REWARD);
    assert (mined + [b])[..|mined|] == mined;
    forall a ensures Mined(mined + [b], a) == Mined(mined, a) + if b.coinbase == a then 1 else 0 {}
    forall a ensures
        && Lookup(s'.balances, a) == 10000 * Mined(mined + [b], a) + Received(txs, a) - Sent(txs, a)
        && Lookup(s'.balances, a) >= 0
        && Lookup(s'.nonces, a) == SentCount(txs, a) {
      assert Lookup(s.balances, a) >= 0;
    }
  }

  lemma ClosedBlock(o: Oracle, b: Block, s: State, txs: seq<Transaction>, mined: seq<Block>, supply: int)
    requires Closed(s, txs, mined, supply) && ApplyBlock(o, b, s).Ok?
    ensures Closed(ApplyBlock(o, b, s).value, txs + b.transactions, mined + [b], supply + 10000)
  {
    hide Closed, ApplyTxs;
    ClosedTxs(o, b.transactions, s, txs, mined, supply);
    var s' := ApplyTxs(o, b.transactions, s).value;
    ClosedReward(s', ApplyBlock(o, b, s).value, txs + b.transactions, mined, b, supply);
  }

  /** The ledger in closed form, for every chain that replays: each balance is 10000 per mined block plus
      received minus sent and is never negative, each nonce is the number of transactions sent, and the
      supply is 10000 per block after genesis. */
  lemma {:induction false} LedgerClosedForm(o: Oracle, chain: seq<Block>)
    requires Replay(o, chain).Ok?
    ensures Closed(Replay(o, chain).value, Transactions(chain[1..]), chain[1..], 10000 * (|chain| - 1))
    decreases |chain|
  {
    ReplayShape(o, chain);
    var n := |chain| - 1;
    if n > 0 {
      var front, last := chain[..n], chain[n];
      LedgerClosedForm(o, front);
      ClosedBlock(o, last, Replay(o, front).value, Transactions(front[1..]), front[1..], 10000 * (n - 1));
      assert chain[1..][..n - 1] == front[1..];
      assert chain[1..] == front[1..] + [last];
    } else {
      assert chain[1..] == [];
    }
  }

  // ----- No replay -----

  lemma {:induction false} SentCountMonotone(txs: seq<Transaction>, i: nat, j: nat, a: bytes)
    requires i <= j <= |txs|
    ensures SentCount(txs[..i], a) <= SentCount(txs[..j], a)
    ensures i < j && txs[i].sender == a ==> SentCount(txs[..i], a) < SentCount(txs[..j], a)
    decreases j
  {
    if i < j {
      assert txs[..j][..j - 1] == txs[..j - 1];
      SentCountMonotone(txs, i, j - 1, a);
    }
  }

  /** In nonce order, two transactions of one sender never share a nonce. */
  lemma NoncesDiffer(txs: seq<Transaction>, i: nat, j: nat)
    requires InNonceOrder(txs) && i < j < |txs|
    ensures (txs[i].sender, txs[i].nonce) != (txs[j].sender, txs[j].nonce)
  {
    SentCountMonotone(txs, i, j, txs[i].sender);
    assert txs[i].nonce == SentCount(txs[..i], txs[i].sender);
    assert txs[j].nonce == SentCount(txs[..j], txs[j].sender);
  }

  /** On a chain that replays no sender uses a nonce twice, so no transaction occurs twice. */
  lemma NoTransactionTwice(o: Oracle, chain: seq<Block>, i: nat, j: nat)
    requires Replay(o, chain).Ok?
    requires i < j < |Transactions(chain[1..])|
    ensures var txs := Transactions(chain[1..]);
            && (txs[i].sender, txs[i].nonce) != (txs[j].sender, txs[j].nonce)
            && txs[i] != txs[j]
  {
    LedgerClosedForm(o, chain);
    NoncesDiffer(Transactions(chain[1..]), i, j);
  }

  lemma {:induction false} TransactionsPrefix(blocks: seq<Block>, k: nat)
    requires k <= |blocks|
    ensures Transactions(blocks[..k]) <= Transactions(blocks)
    decreases |blocks|
  {
    if k < |blocks| {
      TransactionsPrefix(blocks[..|blocks| - 1], k);
      assert blocks[..|blocks| - 1][..k] == blocks[..k];
    } else {
      assert blocks[..k] == blocks;
    }
  }

  /** What a builder selects continues the nonce order of the whole chain. */
  lemma SelectionContinuesOrder(o: Oracle, chain: seq<Block>, pool: seq<Transaction>)
    requires Replay(o, chain).Ok?
    ensures InNonceOrder(Transactions(chain[1..])
                         + Select(o, pool, Replay(o, chain).value, MAX_TRANSACTIONS_PER_BLOCK).chosen)
  {
    hide Replay, Select, Transactions, InNonceOrder;
    var s := Replay(o, chain).value;
    ReplayShape(o, chain);
    LedgerClosedForm(o, chain);
    SelectSound(o, pool, s, MAX_TRANSACTIONS_PER_BLOCK);
    ClosedTxs(o, Select(o, pool, s, MAX_TRANSACTIONS_PER_BLOCK).chosen, s, Transactions(chain[1..]), chain[1..],
              10000 * (|chain| - 1));
  }

  /** A block built on the state of a chain never takes again a (sender, nonce) of any earlier point of
      that chain, whatever is in the mempool. */
  lemma BuilderNeverRepeats(o: Oracle, chain: seq<Block>, k: nat, pool: seq<Transaction>, i: nat, j: nat)
    requires Replay(o, chain).Ok? && 1 <= k <= |chain|
    requires i < |Transactions(chain[1..k])|
    requires j < |Select(o, pool, Replay(o, chain).value, MAX_TRANSACTIONS_PER_BLOCK).chosen|
    ensures var earlier := Transactions(chain[1..k])[i];
            var taken := Select(o, pool, Replay(o, chain).value, MAX_TRANSACTIONS_PER_BLOCK).chosen[j];
            (earlier.sender, earlier.nonce) != (taken.sender, taken.nonce)
  {
    hide Replay, Select, Transactions, InNonceOrder;
    var before := Transactions(chain[1..]);
    var chosen := Select(o, pool, Replay(o, chain).value, MAX_TRANSACTIONS_PER_BLOCK).chosen;
    assert chain[1..][..k - 1] == chain[1..k];
    TransactionsPrefix(chain[1..], k - 1);
    SelectionContinuesOrder(o, chain, pool);
    NoncesDiffer(before + chosen, i, |before| + j);
  }

  // ----- The limit on transactions -----

  /** `n` transfers of nothing from `a` to itself, with the nonces from `first` on, signed by `sign`. */
  function IdleTransfers(a: bytes, sign: int -> bytes, first: int, n: nat): (r: seq<Transaction>)
    ensures |r| == n
    decreases n
  {
    if n == 0 then [] else [IdleTransfer(a, sign, first)] + IdleTransfers(a, sign, first + 1, n - 1)
  }

  function IdleTransfer(a: bytes, sign: int -> bytes, nonce: int): Transaction {
    Transaction(a, a, nonce, 0, sign(nonce))
  }

  lemma {:induction false} IdleTransfersApply(o: Oracle, s: State, a: bytes, sign: int -> bytes, n: nat)
    requires Lookup(s.balances, a) >= 0
    requires forall k :: k >= Lookup(s.nonces, a) ==> o.signature(IdleTransfer(a, sign, k)).Accepts?
    ensures ApplyTxs(o, IdleTransfers(a, sign, Lookup(s.nonces, a), n), s).Ok?
    decreases n
  {
    if n > 0 {
      var txs := IdleTransfers(a, sign, Lookup(s.nonces, a), n);
      ApplyTxEffect(o, txs[0], s);
      IdleTransfersApply(o, ApplyTx(o, txs[0], s).1, a, sign, n - 1);
    }
  }

  /** The documented limit of ten transactions a block is not checked. For every difficulty that can be met, every state
      and every account whose signatures are accepted there is, for every number, a block with that many
      transactions that validation accepts. Only the builder keeps the limit. */
  lemma ValidationHasNoLimit(o: Oracle, s: State, a: bytes, sign: int -> bytes, n: nat) returns (b: Block)
    requires Minable(o) && Lookup(s.balances, a) >= 0
    requires forall k :: k >= Lookup(s.nonces, a) ==> o.signature(IdleTransfer(a, sign, k)).Accepts?
    ensures |b.transactions| == n && ApplyBlock(o, b, s).Ok?
  {
    IdleTransfersApply(o, s, a, sign, n);
    var template := Template(s, a, IdleTransfers(a, sign, Lookup(s.nonces, a), n));
    var nonce :| o.meets(Digest(template.(nonce := nonce)));
    b := template.(nonce := nonce);
  }
}
