/** The mutable block object: its fields, the text it prints to and the hash it caches. */
module BlockRecords {
  import opened Types
  import opened Text
  import opened Codec

  class BlockRecord {
    const sha: string -> bytes
    var number: int
    var nonce: int
    var parentHash: bytes
    var coinbase: bytes
    var transactions: seq<Transaction>
    var hash: bytes

    function Content(): WireBlock
      reads this
    {
      Block(number, nonce, parentHash, coinbase, transactions)
    }

    /** The cached hash is the hash of the present content. */
    predicate HashIsCurrent()
      reads this
    {
      SerializeBlock(Content()).Ok? && hash == sha(SerializeBlock(Content()).value)
    }

    constructor (sha: string -> bytes)
      ensures this.sha == sha
      ensures Content() == Block(0, 0, [], [], []) && hash == []
    {
      this.sha := sha;
      number, nonce, parentHash, coinbase, transactions, hash := 0, 0, [], [], [], [];
    }

    method Serialize() returns (r: Result<string>)
      ensures r == SerializeBlock(Content())
    {
      hide Join, Hex, Decimal, DataToSign;
      var data := Decimal(number);
      data := data + ":" + Decimal(nonce);
      data := data + ":" + Hex(parentHash);
      data := data + ":" + Hex(coinbase);
      HeaderIsJoin(Content());
      assert Lines(transactions[..0]) == [];
      assert Header(Content()) + [] == Header(Content());
      for i := 0 to |transactions|
        invariant Signed(transactions[..i])
        invariant data == Join(Header(Content()) + Lines(transactions[..i]), ':')
      {
        var line := SerializeTransaction(transactions[i]);
        if line.Err? {
          return Err(NotSigned);
        }
        var before, after := transactions[..i], transactions[..i + 1];
        assert after == before + [transactions[i]];
        assert Lines(after) == Lines(before) + [line.value];
        JoinAppend(Header(Content()) + Lines(before), line.value, ':');
        assert Header(Content()) + Lines(after) == Header(Content()) + Lines(before) + [line.value];
        data := data + ":" + line.value;
      }
      assert transactions[..|transactions|] == transactions;
      return Ok(data);
    }

    method CalculateHash() returns (r: Result<bytes>)
      modifies this`hash
      ensures r.Ok? <==> Signed(transactions)
      ensures r.Ok? ==> HashIsCurrent() && r.value == hash
      ensures r.Err? ==> hash == old(hash)
    {
      var data := Serialize();
      if data.Err? {
        return Err(data.error);
      }
      hash := sha(data.value);
      return Ok(hash);
    }

    /** The test refreshes the cached hash first, so a change of nonce or content is never tested stale. */
    method HasDifficulty(difficulty: nat) returns (r: Result<bool>)
      modifies this`hash
      ensures r.Ok? <==> Signed(transactions)
      ensures r.Ok? ==> HashIsCurrent() && r.value == HasZeroDigits(hash, difficulty)
    {
      var calculated := CalculateHash();
      if calculated.Err? {
        return Err(calculated.error);
      }
      r := Ok(ZeroDigits(difficulty) <= Hex(hash));
    }

    /** Parsing fills the fields and computes the hash, which raises for an unsigned transaction. */
    static method Deserialize(sha: string -> bytes, data: string) returns (r: Result<BlockRecord>)
      ensures match DeserializeBlock(data)
              case Err(e) => r == Err(e)
              case Ok(b) =>
                if Signed(b.transactions)
                then r.Ok? && fresh(r.value) && r.value.Content() == b && r.value.sha == sha && r.value.HashIsCurrent()
                else r.Err?
    {
      var parsed := DeserializeBlock(data);
      if parsed.Err? {
        return Err(parsed.error);
      }
      var b := new BlockRecord(sha);
      b.number, b.nonce := parsed.value.number, parsed.value.nonce;
      b.parentHash, b.coinbase := parsed.value.parentHash, parsed.value.coinbase;
      b.transactions := parsed.value.transactions;
      var calculated := b.CalculateHash();
      if calculated.Err? {
        return Err(calculated.error);
      }
      return Ok(b);
    }

    /** What storing a block and loading it again comes to: an equal block with an equal hash. */
    method SaveAndLoad() returns (r: Result<BlockRecord>)
      requires HashIsCurrent()
      ensures r.Ok? && fresh(r.value) && r.value.Content() == Content() && r.value.hash == hash
    {
      var data := Serialize();
      BlockRoundTrip(Content());
      r := Deserialize(sha, data.value);
    }
  }
}
