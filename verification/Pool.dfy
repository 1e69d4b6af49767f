/** The mempool as a list without repetitions: an insertion-ordered dictionary keyed by transaction hash. */
module Pool {
  import opened Types

  predicate Distinct(pool: seq<Transaction>) {
    forall i, j :: 0 <= i < j < |pool| ==> pool[i] != pool[j]
  }

  /** Assigning to an existing key keeps its place. */
  function AddTransaction(pool: seq<Transaction>, tx: Transaction): (r: seq<Transaction>)
    ensures pool <= r && forall t :: t in r <==> t in pool || t == tx
    ensures Distinct(pool) ==> Distinct(r)
  {
    if tx in pool then pool else pool + [tx]
  }

  /** What is left, in order, once everything in `gone` is evicted. */
  function Evict(pool: seq<Transaction>, gone: seq<Transaction>): (r: seq<Transaction>)
    ensures forall tx :: tx in r <==> tx in pool && tx !in gone
  {
    if pool == [] then []
    else if pool[0] in gone then Evict(pool[1..], gone)
    else [pool[0]] + Evict(pool[1..], gone)
  }

  lemma {:induction false} EvictTwice(pool: seq<Transaction>, gone: seq<Transaction>, more: seq<Transaction>)
    ensures Evict(Evict(pool, gone), more) == Evict(pool, gone + more)
  {
    if pool != [] {
      EvictTwice(pool[1..], gone, more);
      if pool[0] !in gone {
        var left := Evict(pool, gone);
        assert left[0] == pool[0] && left[1..] == Evict(pool[1..], gone);
      }
    }
  }

  lemma {:induction false} EvictNothing(pool: seq<Transaction>)
    ensures Evict(pool, []) == pool
  {
    if pool != [] {
      EvictNothing(pool[1..]);
    }
  }

  /** Whatever stands before another after an eviction stood before it already. */
  lemma {:induction false} EvictKeepsOrder(pool: seq<Transaction>, gone: seq<Transaction>, i: nat, j: nat)
    returns (k: nat, l: nat)
    requires i < j < |Evict(pool, gone)|
    ensures k < l < |pool| && pool[k] == Evict(pool, gone)[i] && pool[l] == Evict(pool, gone)[j]
  {
    if pool[0] in gone {
      k, l := EvictKeepsOrder(pool[1..], gone, i, j);
      k, l := k + 1, l + 1;
    } else if i == 0 {
      var left := Evict(pool[1..], gone);
      assert left[j - 1] in left;
      var m :| 0 <= m < |pool[1..]| && pool[1..][m] == left[j - 1];
      k, l := 0, m + 1;
    } else {
      k, l := EvictKeepsOrder(pool[1..], gone, i - 1, j - 1);
      k, l := k + 1, l + 1;
    }
  }

  lemma {:induction false} EvictKeepsDistinct(pool: seq<Transaction>, gone: seq<Transaction>)
    requires Distinct(pool)
    ensures Distinct(Evict(pool, gone))
  {
    if pool != [] {
      EvictKeepsDistinct(pool[1..], gone);
      assert pool[0] !in pool[1..];
    }
  }
}
