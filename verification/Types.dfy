/** The values every part of the node shares: bytes, transactions, blocks, hashes and results. */
module Types {

  type byte = x: int | 0 <= x < 256

  type bytes = seq<byte>

  datatype Option<+T> = None | Some(value: T) {

    function GetOr(default: T): T {
      if Some? then value else default
    }
  }

  /** The exceptions the modelled code can raise, one constructor per place that raises. */
  datatype Error =
    | WrongNumber
    | WrongParent
    | NoDifficulty
    | InvalidTransaction
    | SignatureRaised
    | ParentNotFound
    | BlockNotFound
    | StateNotFound
    | LatestNotFound
    | NotGenesis
    | Malformed
    | NotSigned
    | Overflow
    | WrongSnapshot
    | AlreadyRegistered
    | HandlerRaised

  datatype Result<+T> = Ok(value: T) | Err(error: Error) {

    predicate IsFailure() {
      Err?
    }

    function PropagateFailure<U>(): Result<U>
      requires Err?
    {
      Err(error)
    }

    function Extract(): T
      requires Ok?
    {
      value
    }
  }

  /** The state an operation leaves behind, and the exception it raised if it did. */
  datatype Outcome<+S> = Outcome(error: Option<Error>, state: S)

  datatype Transaction = Transaction(sender: bytes, receiver: bytes, nonce: int, amount: int, sig: bytes)

  /** A block without its cached hash. The type of hashes is a parameter: the codecs use bytes, the chain
      engine uses `Hash`. */
  datatype BlockOf<+H> =
    Block(number: int, nonce: int, parentHash: H, coinbase: bytes, transactions: seq<Transaction>)

  /** The free hash that stands for SHA-256: `Digest(b)` is the hash of `b` and of nothing else, and
      `Raw` is any byte string that is not the hash of a block. */
  datatype Hash = Raw(raw: bytes) | Digest(block: BlockOf<Hash>)

  type Block = BlockOf<Hash>

  /** What `validate_signature` may do: answer True, answer False, or raise (unsigned transaction, malformed key). */
  datatype SignatureCheck = Accepts | Refuses | Raises

  /** The two cryptographic questions the chain engine asks. */
  datatype Oracle = Oracle(signature: Transaction -> SignatureCheck, meets: Hash -> bool)

  function Zeros(n: nat): (r: bytes)
    ensures |r| == n
  {
    seq(n, _ => 0)
  }

  const GENESIS: Block := Block(0, 0, Raw(Zeros(32)), Zeros(33), [])

  /** A block's whole ancestry, oldest first, as far back as its hashes reach. */
  function Ancestors(b: Block): (r: seq<Block>)
    ensures |r| >= 1 && r[|r| - 1] == b
    decreases b
  {
    match b.parentHash
    case Raw(_) => [b]
    case Digest(p) => Ancestors(p) + [b]
  }

  /** Genesis, or numbered one above a well-numbered parent. */
  predicate WellNumbered(b: Block)
    decreases b
  {
    || b == GENESIS
    || (b.parentHash.Digest? && b.number == b.parentHash.block.number + 1 && WellNumbered(b.parentHash.block))
  }

  /** Each block but the first names its predecessor's hash. */
  predicate Linked(chain: seq<Block>) {
    forall i :: 0 < i < |chain| ==> chain[i].parentHash == Digest(chain[i - 1])
  }

  lemma {:induction false} AncestorsLinked(b: Block)
    ensures Linked(Ancestors(b)) && Ancestors(b)[0].parentHash.Raw?
    decreases b
  {
    match b.parentHash
    case Raw(_) =>
    case Digest(p) => AncestorsLinked(p);
  }

  /** A linked chain that starts at a block without a parent is the ancestry of its last block. */
  lemma {:induction false} LinkedIsAncestors(chain: seq<Block>)
    requires |chain| >= 1 && Linked(chain) && chain[0].parentHash.Raw?
    ensures Ancestors(chain[|chain| - 1]) == chain
  {
    var n := |chain| - 1;
    if n > 0 {
      var front := chain[..n];
      LinkedIsAncestors(front);
      assert chain == front + [chain[n]];
    }
  }

  /** In a well-numbered ancestry the number is the position, and the first block is genesis. */
  lemma {:induction false} WellNumberedPositions(b: Block)
    requires WellNumbered(b)
    ensures b.number == |Ancestors(b)| - 1
    ensures Ancestors(b)[0] == GENESIS
    ensures forall i :: 0 <= i < |Ancestors(b)| ==> Ancestors(b)[i].number == i && WellNumbered(Ancestors(b)[i])
    decreases b
  {
    if b != GENESIS {
      WellNumberedPositions(b.parentHash.block);
    }
  }
}
