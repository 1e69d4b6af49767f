/** The byte formats: messages and length-prefixed frames, and how a stream of frames is read back. */
module Wire {
  import opened Types

  // ----- Big-endian integers -----

  function Power256(n: nat): (r: nat)
    ensures r >= 1
  {
    if n == 0 then 1 else 256 * Power256(n - 1)
  }

  /** `int.from_bytes(bs, "big")`. */
  function FromBigEndian(bs: bytes): nat {
    if bs == [] then 0 else 256 * FromBigEndian(bs[..|bs| - 1]) + bs[|bs| - 1]
  }

  /** `n.to_bytes(width, "big")`: raises when the number does not fit. */
  function ToBigEndian(n: int, width: nat): Result<bytes> {
    if n < 0 || n >= Power256(width) then Err(Overflow) else Ok(Digits(n, width))
  }

  function Digits(n: nat, width: nat): (r: bytes)
    ensures |r| == width
  {
    if width == 0 then [] else
    var low: byte := n % 256;
    Digits(n / 256, width - 1) + [low]
  }

  lemma {:induction false} DigitsRoundTrip(n: nat, width: nat)
    requires n < Power256(width)
    ensures FromBigEndian(Digits(n, width)) == n
  {
    if width > 0 {
      var bs := Digits(n, width);
      DigitsRoundTrip(n / 256, width - 1);
      assert bs[..|bs| - 1] == Digits(n / 256, width - 1);
    }
  }

  lemma {:induction false} FromBigEndianBound(bs: bytes)
    ensures FromBigEndian(bs) < Power256(|bs|)
  {
    if bs != [] {
      FromBigEndianBound(bs[..|bs| - 1]);
    }
  }

  lemma {:induction false} Power256Monotone(m: nat, n: nat)
    requires m <= n
    ensures Power256(m) <= Power256(n)
    decreases n
  {
    if m < n {
      Power256Monotone(m, n - 1);
    }
  }

  lemma Power256Of4()
    ensures Power256(4) == 0x1_0000_0000
  {
    assert Power256(1) == 256 && Power256(2) == 65536 && Power256(3) == 16777216;
  }

  /** Four bytes, the most significant first. */
  lemma DigitsOf4(n: nat)
    requires n < 0x1_0000_0000
    ensures var bs := Digits(n, 4);
            n == 0x100_0000 * (bs[0] as int) + 0x1_0000 * (bs[1] as int) + 0x100 * (bs[2] as int) + bs[3]
  {
    var a, b, c := n / 256, n / 256 / 256, n / 256 / 256 / 256;
    assert Digits(c, 1) == Digits(c / 256, 0) + [c % 256];
    assert Digits(b, 2) == Digits(c, 1) + [b % 256];
    assert Digits(a, 3) == Digits(b, 2) + [a % 256];
    assert Digits(n, 4) == Digits(a, 3) + [n % 256];
  }

  // ----- Messages -----

  /** `kind` is the kind's UTF-8 encoding. */
  datatype Message = Message(messageType: int, id: int, kind: bytes, payload: bytes)

  function SerializeMessage(m: Message): Result<bytes> {
    if m.messageType < 0 || m.messageType > 255 then Err(Overflow) else
    var kindOf: byte := m.messageType;
    var id :- ToBigEndian(m.id, 4);
    Ok([kindOf] + id + m.kind + [0] + m.payload)
  }

  /** `data.index(0, from)`. */
  function IndexOfNull(data: bytes, from: nat): (r: Option<nat>)
    ensures r.Some? ==> from <= r.value < |data|
    decreases |data| - from
  {
    if from >= |data| then None
    else if data[from] == 0 then Some(from)
    else IndexOfNull(data, from + 1)
  }

  function DeserializeMessage(data: bytes): Result<Message> {
    if data == [] then Err(Malformed) else
    var id := FromBigEndian(data[1..if |data| < 5 then |data| else 5]);
    match IndexOfNull(data, 5)
    case None => Err(Malformed)
    case Some(n) => Ok(Message(data[0], id, data[5..n], data[n + 1..]))
  }

  lemma {:induction false} IndexOfNullFinds(data: bytes, from: nat, at: nat)
    requires from <= at < |data| && data[at] == 0
    requires forall i :: from <= i < at ==> data[i] != 0
    ensures IndexOfNull(data, from) == Some(at)
    decreases at - from
  {
    if from < at {
      IndexOfNullFinds(data, from + 1, at);
    }
  }

  lemma {:induction false} IndexOfNullIsFirst(data: bytes, from: nat)
    ensures match IndexOfNull(data, from)
            case None => forall i :: from <= i < |data| ==> data[i] != 0
            case Some(n) => from <= n < |data| && data[n] == 0 && forall i :: from <= i < n ==> data[i] != 0
    decreases |data| - from
  {
    if from < |data| && data[from] != 0 {
      IndexOfNullIsFirst(data, from + 1);
    }
  }

  /** A message that can be printed is parsed back exactly when its kind holds no zero byte. */
  lemma MessageRoundTrip(m: Message)
    requires SerializeMessage(m).Ok?
    ensures DeserializeMessage(SerializeMessage(m).value) == Ok(m) <==> 0 !in m.kind
  {
    var data := SerializeMessage(m).value;
    var id := Digits(m.id, 4);
    DigitsRoundTrip(m.id, 4);
    assert data[1..5] == id;
    var end := 5 + |m.kind|;
    assert data[end] == 0 && data[5..end] == m.kind && data[end + 1..] == m.payload;
    if 0 in m.kind {
      var k :| 0 <= k < |m.kind| && m.kind[k] == 0;
      assert data[5 + k] == 0;
      IndexOfNullIsFirst(data, 5);
      var n := IndexOfNull(data, 5).value;
      assert |data[5..n]| < |m.kind|;
    } else {
      forall i | 5 <= i < end ensures data[i] != 0 {
        assert data[i] == m.kind[i - 5];
      }
      IndexOfNullFinds(data, 5, end);
    }
  }

  /** A message can be printed exactly when its type fits a byte and its id four. */
  lemma PrintableMessage(m: Message)
    ensures SerializeMessage(m).Ok? <==> 0 <= m.messageType < 256 && 0 <= m.id < 0x1_0000_0000
  {
    Power256Of4();
  }

  /** A parsed message has a type and an id that can be printed again, so a response can always be. */
  lemma ParsedIdFits(data: bytes)
    requires DeserializeMessage(data).Ok?
    ensures var m := DeserializeMessage(data).value;
            0 <= m.messageType < 256 && 0 <= m.id < 0x1_0000_0000 && 0 !in m.kind
  {
    var id := data[1..if |data| < 5 then |data| else 5];
    FromBigEndianBound(id);
    Power256Monotone(|id|, 4);
    Power256Of4();
    IndexOfNullIsFirst(data, 5);
  }

  /** The bytes of a printed message: type, four bytes of id, kind, a zero byte, payload. */
  lemma MessageLayout(m: Message)
    requires SerializeMessage(m).Ok?
    ensures var data := SerializeMessage(m).value;
            && |data| == 6 + |m.kind| + |m.payload|
            && data[0] == m.messageType
            && m.id == 0x100_0000 * (data[1] as int) + 0x1_0000 * (data[2] as int) + 0x100 * (data[3] as int) + data[4]
            && data[5..5 + |m.kind|] == m.kind && data[5 + |m.kind|] == 0 && data[6 + |m.kind|..] == m.payload
  {
    PrintableMessage(m);
    DigitsOf4(m.id);
    var data := SerializeMessage(m).value;
    assert data[1..5] == Digits(m.id, 4);
    assert data[1] == data[1..5][0] && data[2] == data[1..5][1] && data[3] == data[1..5][2] && data[4] == data[1..5][3];
  }

  lemma {:induction false} DigitsOfParsed(bs: bytes)
    ensures Digits(FromBigEndian(bs), |bs|) == bs
  {
    if bs != [] {
      var front := bs[..|bs| - 1];
      DigitsOfParsed(front);
      assert FromBigEndian(bs) / 256 == FromBigEndian(front) && FromBigEndian(bs) % 256 == bs[|bs| - 1];
      assert bs == front + [bs[|bs| - 1]];
    }
  }

  /** Parsing is printing the other way round: what parses prints back to the very same bytes, and what does not
      parse has no zero byte after the first five. */
  lemma ParsedPrintsBack(data: bytes)
    ensures match DeserializeMessage(data)
            case Ok(m) => SerializeMessage(m) == Ok(data)
            case Err(e) => e == Malformed && forall i :: 5 <= i < |data| ==> data[i] != 0
  {
    IndexOfNullIsFirst(data, 5);
    if data != [] && IndexOfNull(data, 5).Some? {
      var n := IndexOfNull(data, 5).value;
      ParsedIdFits(data);
      PrintableMessage(DeserializeMessage(data).value);
      DigitsOfParsed(data[1..5]);
      assert data == [data[0]] + data[1..5] + data[5..n] + [0] + data[n + 1..];
    }
  }

  // ----- Frames -----

  function Frame(message: bytes): Result<bytes> {
    var length :- ToBigEndian(|message|, 4);
    Ok(length + message)
  }

  /** What a reader gets out of a whole stream, and the bytes left when it cannot go on. */
  function ReadFrames(stream: bytes): (seq<bytes>, bytes)
    decreases |stream|
  {
    if |stream| < 4 then ([], stream) else
    var length := FromBigEndian(stream[..4]);
    if |stream| < 4 + length then ([], stream) else
    var (rest, left) := ReadFrames(stream[4 + length..]);
    ([stream[4..4 + length]] + rest, left)
  }

  lemma NothingToRead()
    ensures ReadFrames([]) == ([], [])
  {
  }

  predicate Framable(messages: seq<bytes>) {
    forall i :: 0 <= i < |messages| ==> |messages[i]| < 0x1_0000_0000
  }

  function Frames(messages: seq<bytes>): Result<bytes> {
    if messages == [] then Ok([]) else
    var first :- Frame(messages[0]);
    var rest :- Frames(messages[1..]);
    Ok(first + rest)
  }

  lemma ReadFirst(message: bytes, rest: bytes)
    requires |message| < 0x1_0000_0000
    ensures Frame(message).Ok?
    ensures ReadFrames(Frame(message).value + rest) == ([message] + ReadFrames(rest).0, ReadFrames(rest).1)
  {
    Power256Of4();
    DigitsRoundTrip(|message|, 4);
    var stream := Frame(message).value + rest;
    assert stream[..4] == Digits(|message|, 4);
    assert stream[4..4 + |message|] == message;
    assert stream[4 + |message|..] == rest;
  }

  /** Framing is undone: a stream of frames is read back as the messages, in order, and whatever follows them is
      read as if it stood alone. */
  lemma {:induction false} FramesRoundTrip(messages: seq<bytes>, rest: bytes)
    requires Framable(messages)
    ensures Frames(messages).Ok?
    ensures ReadFrames(Frames(messages).value + rest) == (messages + ReadFrames(rest).0, ReadFrames(rest).1)
  {
    hide Frame, ReadFrames;
    if messages == [] {
      assert [] + rest == rest;
      assert messages + ReadFrames(rest).0 == ReadFrames(rest).0;
    } else {
      FramesRoundTrip(messages[1..], rest);
      var tail := Frames(messages[1..]).value;
      ReadFirst(messages[0], tail + rest);
      assert Frames(messages).value + rest == Frame(messages[0]).value + (tail + rest);
      assert [messages[0]] + (messages[1..] + ReadFrames(rest).0) == messages + ReadFrames(rest).0;
    }
  }

  // ----- The whole stack -----

  function SerializeAll(ms: seq<Message>): Result<seq<bytes>> {
    if ms == [] then Ok([]) else
    var first :- SerializeMessage(ms[0]);
    var rest :- SerializeAll(ms[1..]);
    Ok([first] + rest)
  }

  function DeserializeAll(datas: seq<bytes>): Result<seq<Message>> {
    if datas == [] then Ok([]) else
    var first :- DeserializeMessage(datas[0]);
    var rest :- DeserializeAll(datas[1..]);
    Ok([first] + rest)
  }

  predicate Sendable(m: Message) {
    && 0 <= m.messageType < 256 && 0 <= m.id < 0x1_0000_0000
    && 0 !in m.kind
    && 6 + |m.kind| + |m.payload| < 0x1_0000_0000
  }

  predicate AllSendable(ms: seq<Message>) {
    forall i :: 0 <= i < |ms| ==> Sendable(ms[i])
  }

  lemma {:induction false} AllRoundTrip(ms: seq<Message>)
    requires AllSendable(ms)
    ensures SerializeAll(ms).Ok? && Framable(SerializeAll(ms).value)
    ensures DeserializeAll(SerializeAll(ms).value) == Ok(ms)
  {
    if ms != [] {
      PrintableMessage(ms[0]);
      MessageRoundTrip(ms[0]);
      AllRoundTrip(ms[1..]);
      var datas := SerializeAll(ms).value;
      assert datas[1..] == SerializeAll(ms[1..]).value;
      assert [ms[0]] + ms[1..] == ms;
    }
  }

  /** `stream` is these messages, printed, framed and written one after another. */
  predicate Carries(stream: bytes, ms: seq<Message>) {
    SerializeAll(ms).Ok? && Frames(SerializeAll(ms).value) == Ok(stream)
  }

  /** The wire round trip: any sequence of sendable messages has a stream that carries it, and that stream is read back
      and parsed into the same messages in the same order, with nothing left. */
  lemma WireRoundTrip(ms: seq<Message>, stream: bytes)
    requires AllSendable(ms)
    ensures SerializeAll(ms).Ok? && Frames(SerializeAll(ms).value).Ok?
    ensures Carries(stream, ms) ==> DeserializeAll(ReadFrames(stream).0) == Ok(ms) && ReadFrames(stream).1 == []
  {
    AllRoundTrip(ms);
    var datas := SerializeAll(ms).value;
    FramesRoundTrip(datas, []);
    assert stream + [] == stream;
    assert datas + [] == datas;
  }

  /** The bytes of a frame: four bytes of length, the most significant first, and the message. A message of 2^32
      bytes or more has none. */
  lemma FrameLayout(message: bytes)
    ensures Frame(message).Ok? <==> |message| < 0x1_0000_0000
    ensures Frame(message).Ok? ==>
              var f := Frame(message).value;
              && |f| == 4 + |message| && f[4..] == message
              && |message| == 0x100_0000 * (f[0] as int) + 0x1_0000 * (f[1] as int) + 0x100 * (f[2] as int) + f[3]
  {
    Power256Of4();
    if |message| < 0x1_0000_0000 {
      DigitsOf4(|message|);
      var f := Frame(message).value;
      assert f[..4] == Digits(|message|, 4);
      assert f[0] == f[..4][0] && f[1] == f[..4][1] && f[2] == f[..4][2] && f[3] == f[..4][3];
    }
  }

  /** The stream is these messages, framed, and then `left`, which holds no whole frame. */
  predicate SplitsInto(stream: bytes, messages: seq<bytes>, left: bytes) {
    && Frames(messages).Ok? && stream == Frames(messages).value + left
    && (|left| < 4 || |left| < 4 + FromBigEndian(left[..4]))
  }

  predicate HasFrame(stream: bytes) {
    |stream| >= 4 && |stream| >= 4 + FromBigEndian(stream[..4])
  }

  lemma SplitsOffFirst(stream: bytes, length: nat, messages: seq<bytes>, left: bytes)
    requires HasFrame(stream) && length == FromBigEndian(stream[..4])
    requires SplitsInto(stream[4 + length..], messages, left)
    ensures SplitsInto(stream, [stream[4..4 + length]] + messages, left)
  {
    FirstFrame(stream);
    hide Frame, Frames, FromBigEndian;
    var first, rest := stream[4..4 + length], stream[4 + length..];
    FramesFrontMore(first, messages);
    var frames := Frames(messages).value;
    assert stream == (stream[..4] + first) + rest;
    assert (stream[..4] + first) + (frames + left) == ((stream[..4] + first) + frames) + left;
  }

  /** Every byte of a stream is read once: it is the frames read from it and what is left, which holds no whole
      frame. */
  lemma {:induction false} StreamIsFramesAndRest(stream: bytes)
    ensures SplitsInto(stream, ReadFrames(stream).0, ReadFrames(stream).1)
    decreases |stream|
  {
    hide FromBigEndian;
    if HasFrame(stream) {
      var length := FromBigEndian(stream[..4]);
      hide SplitsInto;
      StreamIsFramesAndRest(stream[4 + length..]);
      SplitsOffFirst(stream, length, ReadFrames(stream[4 + length..]).0, ReadFrames(stream[4 + length..]).1);
    } else {
      assert Frames([]) == Ok([]) && stream == [] + stream;
    }
  }

  lemma FramesFrontMore(first: bytes, messages: seq<bytes>)
    requires Frame(first).Ok? && Frames(messages).Ok?
    ensures Frames([first] + messages) == Ok(Frame(first).value + Frames(messages).value)
  {
    hide Frame;
    assert ([first] + messages)[1..] == messages;
  }

  lemma FirstFrame(stream: bytes)
    requires |stream| >= 4 && |stream| >= 4 + FromBigEndian(stream[..4])
    ensures var first := stream[4..4 + FromBigEndian(stream[..4])];
            Frame(first) == Ok(stream[..4] + first)
  {
    hide Power256, FromBigEndian, Digits;
    FromBigEndianBound(stream[..4]);
    DigitsOfParsed(stream[..4]);
  }

  lemma {:induction false} FramesOneMore(messages: seq<bytes>, message: bytes)
    requires Frames(messages).Ok? && Frame(message).Ok?
    ensures Frames(messages + [message]) == Ok(Frames(messages).value + Frame(message).value)
  {
    hide Frame;
    var all := messages + [message];
    if messages == [] {
      assert all[1..] == [];
      assert Frames(messages) == Ok([]) && all[0] == message;
      assert Frame(message).value + [] == [] + Frame(message).value;
    } else {
      FramesOneMore(messages[1..], message);
      assert all[1..] == messages[1..] + [message];
      var first, rest, last := Frame(messages[0]).value, Frames(messages[1..]).value, Frame(message).value;
      assert first + (rest + last) == first + rest + last;
    }
  }

  lemma {:induction false} SerializeOneMore(ms: seq<Message>, m: Message)
    requires SerializeAll(ms).Ok? && SerializeMessage(m).Ok?
    ensures SerializeAll(ms + [m]) == Ok(SerializeAll(ms).value + [SerializeMessage(m).value])
  {
    hide SerializeMessage;
    var all := ms + [m];
    if ms == [] {
      assert all[1..] == [];
      assert SerializeAll(ms) == Ok([]) && all[0] == m;
      assert [SerializeMessage(m).value] + [] == [] + [SerializeMessage(m).value];
    } else {
      SerializeOneMore(ms[1..], m);
      assert all[1..] == ms[1..] + [m];
      var first, rest, last := SerializeMessage(ms[0]).value, SerializeAll(ms[1..]).value, SerializeMessage(m).value;
      assert [first] + (rest + [last]) == [first] + rest + [last];
    }
  }

  /** Writing one more framed message extends what a stream carries by that message. */
  lemma CarriesOneMore(stream: bytes, ms: seq<Message>, m: Message)
    requires Carries(stream, ms) && SerializeMessage(m).Ok? && Frame(SerializeMessage(m).value).Ok?
    ensures Carries(stream + Frame(SerializeMessage(m).value).value, ms + [m])
  {
    SerializeOneMore(ms, m);
    FramesOneMore(SerializeAll(ms).value, SerializeMessage(m).value);
  }
}
