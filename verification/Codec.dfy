/** The text formats of transactions, blocks and states, and the hash computed from them. */
module Codec {
  import opened Types
  import opened Ledger
  import opened Text

  /** A block whose parent hash is bytes, as it is printed and parsed. */
  type WireBlock = BlockOf<bytes>

  // ----- Transactions -----

  function DataToSign(tx: Transaction): string {
    Hex(tx.sender) + "," + Hex(tx.receiver) + "," + Decimal(tx.nonce) + "," + Decimal(tx.amount)
  }

  function SerializeTransaction(tx: Transaction): Result<string> {
    if tx.sig == [] then Err(NotSigned) else Ok(DataToSign(tx) + "," + Hex(tx.sig))
  }

  function DeserializeTransaction(data: string): Result<Transaction> {
    var parts := Split(data, ',');
    if |parts| != 5 then Err(Malformed) else
    var sender :- FromHex(parts[0]);
    var receiver :- FromHex(parts[1]);
    var nonce :- ParseDecimal(parts[2]);
    var amount :- ParseDecimal(parts[3]);
    var sig :- FromHex(parts[4]);
    Ok(Transaction(sender, receiver, nonce, amount, sig))
  }

  function SignedFields(tx: Transaction): seq<string> {
    [Hex(tx.sender), Hex(tx.receiver), Decimal(tx.nonce), Decimal(tx.amount)]
  }

  lemma DataToSignIsJoin(tx: Transaction)
    ensures DataToSign(tx) == Join(SignedFields(tx), ',')
    ensures forall i :: 0 <= i < 4 ==> Plain(SignedFields(tx)[i])
  {
    HexPlain(tx.sender);
    HexPlain(tx.receiver);
    DecimalPlain(tx.nonce);
    DecimalPlain(tx.amount);
    var f := SignedFields(tx);
    JoinAppend([f[0]], f[1], ',');
    JoinAppend([f[0]] + [f[1]], f[2], ',');
    JoinAppend([f[0]] + [f[1]] + [f[2]], f[3], ',');
    assert f == [f[0]] + [f[1]] + [f[2]] + [f[3]];
  }

  lemma {:induction false} JoinAppend(parts: seq<string>, last: string, sep: char)
    requires |parts| >= 1
    ensures Join(parts + [last], sep) == Join(parts, sep) + [sep] + last
  {
    var more := parts + [last];
    if |parts| == 1 {
      assert more[1..] == [last];
    } else {
      JoinAppend(parts[1..], last, sep);
      assert more[1..] == parts[1..] + [last];
      assert Join(parts, sep) == parts[0] + [sep] + Join(parts[1..], sep);
    }
  }

  lemma SerializedIsJoin(tx: Transaction)
    requires tx.sig != []
    ensures SerializeTransaction(tx) == Ok(Join(SignedFields(tx) + [Hex(tx.sig)], ','))
    ensures Split(SerializeTransaction(tx).value, ',') == SignedFields(tx) + [Hex(tx.sig)]
    ensures ':' !in SerializeTransaction(tx).value
  {
    DataToSignIsJoin(tx);
    HexPlain(tx.sig);
    JoinAppend(SignedFields(tx), Hex(tx.sig), ',');
    SplitJoin(SignedFields(tx) + [Hex(tx.sig)], ',');
  }

  /** The signed text and the printed transaction, field by field. */
  lemma TransactionText(tx: Transaction)
    ensures DataToSign(tx) == Hex(tx.sender) + [','] + Hex(tx.receiver) + [','] + Decimal(tx.nonce) + [',']
                              + Decimal(tx.amount)
    ensures Split(DataToSign(tx), ',') == [Hex(tx.sender), Hex(tx.receiver), Decimal(tx.nonce), Decimal(tx.amount)]
    ensures SerializeTransaction(tx) == if tx.sig == [] then Err(NotSigned)
                                        else Ok(DataToSign(tx) + [','] + Hex(tx.sig))
  {
    DataToSignIsJoin(tx);
    SplitJoin(SignedFields(tx), ',');
  }

  /** Parsing undoes printing for every signed transaction: any integers, any byte fields. */
  lemma TransactionRoundTrip(tx: Transaction)
    requires tx.sig != []
    ensures SerializeTransaction(tx).Ok?
    ensures DeserializeTransaction(SerializeTransaction(tx).value) == Ok(tx)
  {
    SerializedIsJoin(tx);
    HexRoundTrip(tx.sender);
    HexRoundTrip(tx.receiver);
    DecimalRoundTrip(tx.nonce);
    DecimalRoundTrip(tx.amount);
    HexRoundTrip(tx.sig);
  }

  /** A text parses as a transaction exactly when it has five fields that parse, and then as these. */
  lemma TransactionParses(data: string)
    ensures match DeserializeTransaction(data)
            case Ok(tx) =>
              var p := Split(data, ',');
              && |p| == 5 && FromHex(p[0]) == Ok(tx.sender) && FromHex(p[1]) == Ok(tx.receiver)
              && ParseDecimal(p[2]) == Ok(tx.nonce) && ParseDecimal(p[3]) == Ok(tx.amount)
              && FromHex(p[4]) == Ok(tx.sig)
            case Err(_) =>
              var p := Split(data, ',');
              || |p| != 5 || FromHex(p[0]).Err? || FromHex(p[1]).Err? || ParseDecimal(p[2]).Err?
              || ParseDecimal(p[3]).Err? || FromHex(p[4]).Err?
  {
  }

  /** The signed text determines every field the signature is meant to cover. */
  lemma DataToSignInjective(a: Transaction, b: Transaction)
    requires DataToSign(a) == DataToSign(b)
    ensures a.sender == b.sender && a.receiver == b.receiver && a.nonce == b.nonce && a.amount == b.amount
  {
    DataToSignIsJoin(a);
    DataToSignIsJoin(b);
    SplitJoin(SignedFields(a), ',');
    SplitJoin(SignedFields(b), ',');
    var f, g := SignedFields(a), SignedFields(b);
    assert f[0] == g[0] && f[1] == g[1] && f[2] == g[2] && f[3] == g[3];
    HexRoundTrip(a.sender);
    HexRoundTrip(b.sender);
    HexRoundTrip(a.receiver);
    HexRoundTrip(b.receiver);
    DecimalRoundTrip(a.nonce);
    DecimalRoundTrip(b.nonce);
    DecimalRoundTrip(a.amount);
    DecimalRoundTrip(b.amount);
  }

  // ----- Blocks -----

  predicate Signed(txs: seq<Transaction>) {
    forall i :: 0 <= i < |txs| ==> txs[i].sig != []
  }

  function Header(b: WireBlock): seq<string> {
    [Decimal(b.number), Decimal(b.nonce), Hex(b.parentHash), Hex(b.coinbase)]
  }

  function Lines(txs: seq<Transaction>): (r: seq<string>)
    requires Signed(txs)
    ensures |r| == |txs|
    ensures forall i :: 0 <= i < |txs| ==> Ok(r[i]) == SerializeTransaction(txs[i])
  {
    seq(|txs|, i requires 0 <= i < |txs| => SerializeTransaction(txs[i]).value)
  }

  /** The printed block; printing raises when a transaction is not signed. */
  function SerializeBlock(b: WireBlock): Result<string> {
    if Signed(b.transactions) then Ok(Join(Header(b) + Lines(b.transactions), ':')) else Err(NotSigned)
  }

  lemma HeaderIsJoin(b: WireBlock)
    ensures Join(Header(b), ':')
            == Decimal(b.number) + ":" + Decimal(b.nonce) + ":" + Hex(b.parentHash) + ":" + Hex(b.coinbase)
  {
    var h := Header(b);
    assert h == [h[0]] + [h[1]] + [h[2]] + [h[3]];
    JoinAppend([h[0]], h[1], ':');
    JoinAppend([h[0]] + [h[1]], h[2], ':');
    JoinAppend([h[0]] + [h[1]] + [h[2]], h[3], ':');
  }

  /** The printed block: four header fields, and each transaction after another colon. A transaction without a signature
      anywhere makes printing raise. */
  lemma BlockText(b: WireBlock)
    requires b.transactions == []
    ensures SerializeBlock(b) == Ok(Decimal(b.number) + [':'] + Decimal(b.nonce) + [':'] + Hex(b.parentHash) + [':']
                                    + Hex(b.coinbase))
  {
    HeaderIsJoin(b);
    assert Header(b) + Lines(b.transactions) == Header(b);
  }

  lemma BlockTextOneMore(b: WireBlock, txs: seq<Transaction>, tx: Transaction)
    requires b.transactions == txs + [tx]
    ensures match SerializeBlock(b.(transactions := txs))
            case Err(e) => SerializeBlock(b) == Err(e)
            case Ok(front) =>
              match SerializeTransaction(tx)
              case Err(e) => SerializeBlock(b) == Err(e)
              case Ok(line) => SerializeBlock(b) == Ok(front + [':'] + line)
  {
    hide Join, SerializeTransaction, DataToSign;
    SignedOneMore(txs, tx);
    if Signed(txs) && tx.sig != [] {
      var line := SerializedLine(tx);
      assert Lines(txs + [tx]) == Lines(txs) + [line];
      JoinAppend(Header(b) + Lines(txs), line, ':');
      assert Header(b) + Lines(txs + [tx]) == Header(b) + Lines(txs) + [line];
    } else if Signed(txs) {
      var line := SerializeTransaction(tx);
      TransactionText(tx);
    }
  }

  lemma SignedOneMore(txs: seq<Transaction>, tx: Transaction)
    ensures Signed(txs + [tx]) <==> Signed(txs) && tx.sig != []
  {
    if Signed(txs + [tx]) {
      assert (txs + [tx])[|txs|] == tx;
      forall i | 0 <= i < |txs| ensures txs[i].sig != [] {
        assert (txs + [tx])[i] == txs[i];
      }
    }
  }

  lemma SerializedLine(tx: Transaction) returns (line: string)
    requires tx.sig != []
    ensures SerializeTransaction(tx) == Ok(line)
  {
    line := SerializeTransaction(tx).value;
  }

  function DeserializeTransactions(parts: seq<string>): Result<seq<Transaction>> {
    if parts == [] then Ok([]) else
    var tx :- DeserializeTransaction(parts[0]);
    var rest :- DeserializeTransactions(parts[1..]);
    Ok([tx] + rest)
  }

  function DeserializeBlock(data: string): Result<WireBlock> {
    var parts := Split(data, ':');
    if |parts| < 4 then Err(Malformed) else
    var number :- ParseDecimal(parts[0]);
    var nonce :- ParseDecimal(parts[1]);
    var parent :- FromHex(parts[2]);
    var coinbase :- FromHex(parts[3]);
    var txs :- DeserializeTransactions(parts[4..]);
    Ok(Block(number, nonce, parent, coinbase, txs))
  }

  lemma {:induction false} LinesRoundTrip(txs: seq<Transaction>)
    requires Signed(txs)
    ensures DeserializeTransactions(Lines(txs)) == Ok(txs)
  {
    hide DeserializeTransaction, SerializeTransaction;
    if txs != [] {
      TransactionRoundTrip(txs[0]);
      LinesRoundTrip(txs[1..]);
      assert Lines(txs)[1..] == Lines(txs[1..]);
      assert [txs[0]] + txs[1..] == txs;
    }
  }

  lemma {:induction false} TransactionsParse(parts: seq<string>)
    ensures match DeserializeTransactions(parts)
            case Ok(txs) =>
              |txs| == |parts| && forall i :: 0 <= i < |parts| ==> DeserializeTransaction(parts[i]) == Ok(txs[i])
            case Err(_) => exists i :: 0 <= i < |parts| && DeserializeTransaction(parts[i]).Err?
  {
    hide DeserializeTransaction;
    if parts != [] {
      TransactionsParse(parts[1..]);
      if DeserializeTransaction(parts[0]).Ok? && DeserializeTransactions(parts[1..]).Err? {
        var i :| 0 <= i < |parts[1..]| && DeserializeTransaction(parts[1..][i]).Err?;
        assert DeserializeTransaction(parts[i + 1]).Err?;
      }
    }
  }

  /** A text parses as a block exactly when it has at least four fields, the first four parse as header fields and every
      other one as a transaction. */
  lemma BlockParses(data: string)
    ensures var p := Split(data, ':');
            match DeserializeBlock(data)
            case Ok(b) =>
              && |p| == 4 + |b.transactions|
              && ParseDecimal(p[0]) == Ok(b.number) && ParseDecimal(p[1]) == Ok(b.nonce)
              && FromHex(p[2]) == Ok(b.parentHash) && FromHex(p[3]) == Ok(b.coinbase)
              && forall i :: 4 <= i < |p| ==> DeserializeTransaction(p[i]) == Ok(b.transactions[i - 4])
            case Err(_) =>
              || |p| < 4 || ParseDecimal(p[0]).Err? || ParseDecimal(p[1]).Err?
              || FromHex(p[2]).Err? || FromHex(p[3]).Err?
              || exists i :: 4 <= i < |p| && DeserializeTransaction(p[i]).Err?
  {
    hide DeserializeTransaction, ParseDecimal, FromHex, Split;
    var p := Split(data, ':');
    if |p| >= 4 {
      TransactionsParse(p[4..]);
      if DeserializeTransactions(p[4..]).Err? {
        var i :| 0 <= i < |p[4..]| && DeserializeTransaction(p[4..][i]).Err?;
        assert DeserializeTransaction(p[i + 4]).Err?;
      } else {
        assert forall i :: 4 <= i < |p| ==> p[i] == p[4..][i - 4];
      }
    }
  }

  lemma BlockFields(b: WireBlock)
    requires Signed(b.transactions)
    ensures Split(SerializeBlock(b).value, ':') == Header(b) + Lines(b.transactions)
  {
    DecimalPlain(b.number);
    DecimalPlain(b.nonce);
    HexPlain(b.parentHash);
    HexPlain(b.coinbase);
    var parts := Header(b) + Lines(b.transactions);
    forall i | 0 <= i < |parts| ensures ':' !in parts[i] {
      if i >= 4 {
        SerializedIsJoin(b.transactions[i - 4]);
      }
    }
    SplitJoin(parts, ':');
  }

  /** Parsing undoes printing for every block of signed transactions, however many. */
  lemma BlockRoundTrip(b: WireBlock)
    requires Signed(b.transactions)
    ensures SerializeBlock(b).Ok? && DeserializeBlock(SerializeBlock(b).value) == Ok(b)
  {
    BlockFields(b);
    DecimalRoundTrip(b.number);
    DecimalRoundTrip(b.nonce);
    HexRoundTrip(b.parentHash);
    HexRoundTrip(b.coinbase);
    LinesRoundTrip(b.transactions);
    assert (Header(b) + Lines(b.transactions))[4..] == Lines(b.transactions);
  }

  lemma SerializeBlockInjective(a: WireBlock, b: WireBlock)
    requires SerializeBlock(a).Ok? && SerializeBlock(a) == SerializeBlock(b)
    ensures a == b
  {
    BlockRoundTrip(a);
    BlockRoundTrip(b);
  }

  // ----- The free hash and SHA-256 -----

  /** No two printed blocks have the same digest. */
  ghost predicate CollisionFree(sha: string -> bytes) {
    forall a: WireBlock, b: WireBlock ::
      SerializeBlock(a).Ok? && SerializeBlock(b).Ok? && SerializeBlock(a) != SerializeBlock(b) ==>
        sha(SerializeBlock(a).value) != sha(SerializeBlock(b).value)
  }

  /** Every block in the ancestry can be printed, and where it ends the parent hash is the digest of no printed
      block. */
  ghost predicate Hashable(sha: string -> bytes, h: Hash)
    decreases h
  {
    match h
    case Raw(raw) => forall b: WireBlock :: SerializeBlock(b).Ok? ==> sha(SerializeBlock(b).value) != raw
    case Digest(b) => Signed(b.transactions) && Hashable(sha, b.parentHash)
  }

  /** The bytes a free hash stands for. */
  ghost function Concrete(sha: string -> bytes, h: Hash): bytes
    requires Hashable(sha, h)
    decreases h
  {
    match h
    case Raw(raw) => raw
    case Digest(b) => sha(SerializeBlock(ConcreteBlock(sha, b)).value)
  }

  ghost function ConcreteBlock(sha: string -> bytes, b: Block): (r: WireBlock)
    requires Signed(b.transactions) && Hashable(sha, b.parentHash)
    ensures r.transactions == b.transactions
    decreases b
  {
    Block(b.number, b.nonce, Concrete(sha, b.parentHash), b.coinbase, b.transactions)
  }

  /** The free hash is a faithful model: for any hash function under which no two printed blocks collide, two hashes
      have the same bytes exactly when they are the same free hash. */
  lemma {:induction false} FreeHashIsFaithful(sha: string -> bytes, g: Hash, h: Hash)
    requires CollisionFree(sha) && Hashable(sha, g) && Hashable(sha, h)
    ensures Concrete(sha, g) == Concrete(sha, h) <==> g == h
    decreases g
  {
    if g.Digest? && h.Digest? && Concrete(sha, g) == Concrete(sha, h) {
      var a, b := ConcreteBlock(sha, g.block), ConcreteBlock(sha, h.block);
      assert SerializeBlock(a).value == SerializeBlock(b).value;
      SerializeBlockInjective(a, b);
      FreeHashIsFaithful(sha, g.block.parentHash, h.block.parentHash);
    }
  }

  // ----- Difficulty -----

  function ZeroDigits(n: nat): string {
    seq(n, _ => '0')
  }

  /** `hash.hex().startswith("0" * difficulty)`. */
  predicate HasZeroDigits(hash: bytes, difficulty: nat) {
    ZeroDigits(difficulty) <= Hex(hash)
  }

  lemma {:induction false} HexAt(bs: bytes, i: nat)
    requires i < |bs|
    ensures Hex(bs)[2 * i] == Nibble(bs[i] / 16) && Hex(bs)[2 * i + 1] == Nibble(bs[i] % 16)
  {
    if i > 0 {
      HexAt(bs[1..], i - 1);
      assert Hex(bs)[2..] == Hex(bs[1..]);
      assert Hex(bs)[2 * i] == Hex(bs)[2..][2 * (i - 1)];
      assert Hex(bs)[2 * i + 1] == Hex(bs)[2..][2 * (i - 1) + 1];
    }
  }

  lemma NibbleZero(n: nat)
    requires n < 16
    ensures Nibble(n) == '0' <==> n == 0
  {
    NibbleRoundTrip(n);
  }

  /** The difficulty test in terms of the hash's bytes. */
  lemma DifficultyMeansSmallHash(hash: bytes, difficulty: nat)
    ensures HasZeroDigits(hash, difficulty) <==>
              && difficulty <= 2 * |hash|
              && (forall i :: 0 <= i < difficulty / 2 ==> hash[i] == 0)
              && (difficulty % 2 == 1 ==> hash[difficulty / 2] < 16)
  {
    var s := Hex(hash);
    if difficulty <= 2 * |hash| {
      assert HasZeroDigits(hash, difficulty) <==> forall k :: 0 <= k < difficulty ==> s[k] == '0' by {
        if forall k :: 0 <= k < difficulty ==> s[k] == '0' {
          assert s[..difficulty] == ZeroDigits(difficulty);
        }
      }
      forall i | 0 <= i < |hash|
        ensures (s[2 * i] == '0' <==> hash[i] < 16) && (s[2 * i + 1] == '0' <==> hash[i] % 16 == 0) {
        HexAt(hash, i);
        NibbleZero(hash[i] / 16);
        NibbleZero(hash[i] % 16);
      }
      if forall k :: 0 <= k < difficulty ==> s[k] == '0' {
        forall i | 0 <= i < difficulty / 2 ensures hash[i] == 0 {
          assert s[2 * i] == '0' && s[2 * i + 1] == '0';
        }
        if difficulty % 2 == 1 {
          assert s[2 * (difficulty / 2)] == '0';
        }
      }
      if && (forall i :: 0 <= i < difficulty / 2 ==> hash[i] == 0)
         && (difficulty % 2 == 1 ==> hash[difficulty / 2] < 16) {
        forall k | 0 <= k < difficulty ensures s[k] == '0' {
          assert k == 2 * (k / 2) + k % 2;
          if k / 2 < difficulty / 2 {
            assert hash[k / 2] == 0;
          }
        }
      }
    }
  }

  // ----- States -----

  /** A state as a JSON object: addresses and the hash as hexadecimal text. */
  datatype StateJson =
    StateJson(number: int, hash: string, balances: map<string, int>, nonces: map<string, int>)

  predicate Decodes(m: map<string, int>) {
    && (forall k :: k in m ==> FromHex(k).Ok?)
    && (forall k, l :: k in m && l in m && FromHex(k) == FromHex(l) ==> k == l)
  }

  function HexKeys(m: map<bytes, int>): (r: map<string, int>)
    ensures forall a :: a in m ==> Hex(a) in r && r[Hex(a)] == m[a]
    ensures forall k :: k in r ==> FromHex(k).Ok? && FromHex(k).value in m && k == Hex(FromHex(k).value)
  {
    forall a | a in m ensures FromHex(Hex(a)) == Ok(a) {
      HexRoundTrip(a);
    }
    map k | k in (set a | a in m :: Hex(a)) :: m[FromHex(k).value]
  }

  /** Two spellings of one address would collapse in a dictionary; such an object is refused here. */
  function PlainKeys(m: map<string, int>): Result<map<bytes, int>> {
    if Decodes(m) then Ok(map k | k in m :: FromHex(k).value := m[k]) else Err(Malformed)
  }

  function ToJson(s: StateOf<bytes>): StateJson {
    StateJson(s.number, Hex(s.hash), HexKeys(s.balances), HexKeys(s.nonces))
  }

  /** The object's fields: the number, the hash and the addresses as hexadecimal text, and the amounts as they are. */
  lemma StateText(s: StateOf<bytes>, a: bytes)
    ensures var j := ToJson(s);
            && j.number == s.number && j.hash == Hex(s.hash)
            && (Hex(a) in j.balances <==> a in s.balances) && (a in s.balances ==> j.balances[Hex(a)] == s.balances[a])
            && (Hex(a) in j.nonces <==> a in s.nonces) && (a in s.nonces ==> j.nonces[Hex(a)] == s.nonces[a])
  {
    hide HexKeys;
    HexRoundTrip(a);
  }

  function FromJson(j: StateJson): Result<StateOf<bytes>> {
    var hash :- FromHex(j.hash);
    var balances :- PlainKeys(j.balances);
    var nonces :- PlainKeys(j.nonces);
    Ok(State(j.number, hash, balances, nonces))
  }

  lemma KeysRoundTrip(m: map<bytes, int>)
    ensures PlainKeys(HexKeys(m)) == Ok(m)
  {
    var r := HexKeys(m);
    hide HexKeys;
    assert Decodes(r);
    var back := PlainKeys(r).value;
    forall a | a in m ensures a in back {
      HexRoundTrip(a);
      assert Hex(a) in r;
    }
    forall a | a in back ensures a in m && back[a] == m[a] {
      HexRoundTrip(a);
    }
    assert back.Keys == m.Keys;
    assert back == m;
  }

  /** Loading a saved state gives the state back, zero entries included. */
  lemma StateRoundTrip(s: StateOf<bytes>)
    ensures FromJson(ToJson(s)) == Ok(s)
  {
    HexRoundTrip(s.hash);
    KeysRoundTrip(s.balances);
    KeysRoundTrip(s.nonces);
  }
}
